/**
 * The message compiler (src/compiler.ts): how one locale file becomes a
 * namespace of the compiled message tree, and when a compiled output file
 * is rewritten. Reading and parsing files, copying Markdown files and the
 * `change-case` conversions are parameters: the outcome of the read, the
 * parsers, the outcome of the copy and the case functions.
 */
module Compiler {
  import opened Wrappers
  import opened Values
  import Text
  import ObjectPath

  // ---------------------------------------------------------------------
  // `isRef`
  // ---------------------------------------------------------------------

  /** `isRef(input, options)`: a truthy value of type "object" that has the ref key. */
  function IsRef(input: Value, ref: string): (b: bool)
    ensures b ==> input.Obj? || input.Arr?
    ensures input.Obj? ==> (b <==> ref in Keys(input.props))
  {
    Truthy(input) && TypeofObject(input) && HasProp(input, ref)
  }

  // ---------------------------------------------------------------------
  // `extname` and the key path
  // ---------------------------------------------------------------------

  /** Index of the last occurrence of `c` in `s`. */
  function LastIndex(s: string, c: char): (r: Option<nat>)
    ensures r.None? ==> c !in s
    ensures r.Some? ==> r.value < |s| && s[r.value] == c && c !in s[r.value + 1..]
  {
    if s == [] then None
    else if s[|s| - 1] == c then Some(|s| - 1)
    else
      var r := LastIndex(s[..|s| - 1], c);
      assert s == s[..|s| - 1] + [s[|s| - 1]];
      assert r.Some? ==> s[r.value + 1..] == s[..|s| - 1][r.value + 1..] + [s[|s| - 1]];
      r
  }

  /** The last occurrence is the one with no other occurrence after it. */
  lemma LastIndexAt(s: string, c: char, i: nat)
    requires i < |s| && s[i] == c && c !in s[i + 1..]
    ensures LastIndex(s, c) == Some(i)
  {
    var r := LastIndex(s, c);
    assert s[i] in s;
    var j := r.value;
    forall k | j < k < |s| ensures s[k] != c {
      assert s[k] == s[j + 1..][k - j - 1];
    }
    forall k | i < k < |s| ensures s[k] != c {
      assert s[k] == s[i + 1..][k - i - 1];
    }
  }

  /** `basename(p)` of a path with no trailing `/`: what follows the last `/`. */
  function Basename(p: string): (b: string)
    ensures '/' !in b && |b| <= |p| && p[|p| - |b|..] == b
  {
    match LastIndex(p, '/')
    case None => p
    case Some(i) => p[i + 1..]
  }

  /**
   * `extname(p)` of `node:path`: the base name from its last `.` on, or
   * nothing when it has no `.`, when that `.` starts it, or when it is `..`.
   */
  function Extname(p: string): string {
    var b := Basename(p);
    match LastIndex(b, '.')
    case None => ""
    case Some(d) => if d == 0 || b == ".." then "" else b[d..]
  }

  /** The extension is empty, or a `.` with no other `.` after it, ending the path. */
  lemma ExtnameShape(p: string)
    ensures var e := Extname(p);
      e == [] || (e[0] == '.' && '.' !in e[1..] && '/' !in e && |e| <= |p| && p[|p| - |e|..] == e)
  {
    var b := Basename(p);
    var e := Extname(p);
    if e != [] {
      var d := LastIndex(b, '.').value;
      assert e == b[d..];
      assert e[1..] == b[d + 1..];
      assert p[|p| - |b| + d..] == p[|p| - |b|..][d..];
    }
  }

  /** A file name with a non-empty stem and an extension of its own has that extension. */
  lemma ExtnameOf(dir: string, name: string, ext: string)
    requires name != "" && '/' !in name
    requires |ext| >= 2 && ext[0] == '.' && '.' !in ext[1..] && '/' !in ext
    ensures Extname(dir + "/" + name + ext) == ext
  {
    var p := dir + "/" + name + ext;
    var b := name + ext;
    assert p[|dir| + 1..] == b;
    assert p[|dir|] == '/';
    assert p[|dir| + 1..] == b;
    LastIndexAt(p, '/', |dir|);
    assert b[|name|..] == ext && b[|name| + 1..] == ext[1..];
    LastIndexAt(b, '.', |name|);
  }

  /** `s.slice(1)`. */
  function SliceFrom1(s: string): string {
    if s == [] then [] else s[1..]
  }

  /** `segs.filter((seg) => seg !== "_index")`. */
  function DropIndex(segs: seq<string>): (r: seq<string>)
    ensures "_index" !in r
    ensures forall s | s != "_index" :: multiset(r)[s] == multiset(segs)[s]
  {
    if segs == [] then []
    else
      assert segs == [segs[0]] + segs[1..];
      (if segs[0] == "_index" then [] else [segs[0]]) + DropIndex(segs[1..])
  }

  /** The filter keeps the order of the segments it keeps. */
  lemma {:induction false} DropIndexAppend(a: seq<string>, b: seq<string>)
    ensures DropIndex(a + b) == DropIndex(a) + DropIndex(b)
  {
    if a == [] {
      assert a + b == b;
    } else {
      var head := if a[0] == "_index" then [] else [a[0]];
      assert (a + b)[0] == a[0] && (a + b)[1..] == a[1..] + b;
      calc {
        DropIndex(a + b);
        head + DropIndex(a[1..] + b);
        { DropIndexAppend(a[1..], b); }
        head + (DropIndex(a[1..]) + DropIndex(b));
        (head + DropIndex(a[1..])) + DropIndex(b);
      }
    }
  }

  /** The path below the locale root, as `file.replace(root, "").slice(1)` spells it. */
  function Relative(root: string, file: string): string {
    SliceFrom1(Text.ReplaceFirst(file, root, ""))
  }

  /**
   * The stem as written: `.replace(ext, "")` removes the FIRST occurrence of
   * the extension, which may lie in a directory name before the file's own.
   */
  function StemAsWritten(root: string, file: string): string {
    Text.ReplaceFirst(Relative(root, file), Extname(file), "")
  }

  /** `s` without the suffix `suf`, when it has it. */
  function DropSuffix(s: string, suf: string): (r: string)
    ensures |suf| <= |s| && s[|s| - |suf|..] == suf ==> r + suf == s
    ensures !(|suf| <= |s| && s[|s| - |suf|..] == suf) ==> r == s
  {
    if |suf| <= |s| && s[|s| - |suf|..] == suf then s[..|s| - |suf|] else s
  }

  /** The stem: the relative path without the file's own extension. */
  function Stem(root: string, file: string): string {
    DropSuffix(Relative(root, file), Extname(file))
  }

  /** Where the extension occurs only at the end, the written and the intended stem agree. */
  lemma StemAgrees(root: string, file: string)
    requires var rel, e := Relative(root, file), Extname(file);
      Text.FindFrom(rel, e, 0) == Some(|rel| - |e|)
    ensures StemAsWritten(root, file) == Stem(root, file)
  {
    ReplaceAtEnd(Relative(root, file), Extname(file));
  }

  /** The first occurrence is the one with no occurrence before it. */
  lemma FindFromAt(s: string, pat: string, i: nat)
    requires Text.OccursAt(s, pat, i) && forall j | 0 <= j < i :: !Text.OccursAt(s, pat, j)
    ensures Text.FindFrom(s, pat, 0) == Some(i)
  {
  }

  /**
   * A directory named like the extension loses it instead of the file:
   * below `root`, `d.x/n.x` has the stem `d/n.x` as written, not `d.x/n`.
   */
  lemma ExtensionInDirectory(root: string, d: string, n: string, ext: string)
    requires d != "" && n != "" && '/' !in d && '/' !in n && '.' !in d
    requires |ext| >= 2 && ext[0] == '.' && '.' !in ext[1..] && '/' !in ext
    ensures var file := root + "/" + d + ext + "/" + n + ext;
      && StemAsWritten(root, file) == d + "/" + n + ext
      && Stem(root, file) == d + ext + "/" + n
  {
    var rel := d + ext + "/" + n + ext;
    var file := root + "/" + d + ext + "/" + n + ext;
    ExtnameOf(root + "/" + d + ext, n, ext);
    FileBelowRoot(root, d, n, ext);
    ExtensionTwice(d, n, ext);
  }

  /** Dropping the root and its separator from `root/d.x/n.x`. */
  lemma FileBelowRoot(root: string, d: string, n: string, ext: string)
    ensures Relative(root, root + "/" + d + ext + "/" + n + ext) == d + ext + "/" + n + ext
  {
    var file := root + "/" + d + ext + "/" + n + ext;
    var rel := d + ext + "/" + n + ext;
    var k := |root| + 1;
    calc {
      file[k..];
      { DropAppend(root + "/" + d + ext + "/" + n, ext, k); }
      (root + "/" + d + ext + "/" + n)[k..] + ext;
      { DropAppend(root + "/" + d + ext + "/", n, k); }
      (root + "/" + d + ext + "/")[k..] + n + ext;
      { DropAppend(root + "/" + d + ext, "/", k); }
      (root + "/" + d + ext)[k..] + "/" + n + ext;
      { DropAppend(root + "/" + d, ext, k); }
      (root + "/" + d)[k..] + ext + "/" + n + ext;
      { assert (root + "/" + d)[k..] == d; }
      rel;
    }
    assert file[..|root|] == root && file[|root|] == '/';
    RelativeAt(root, file);
  }

  /** In `d.x/n.x` the first `.x` is the directory's; the last is the file's. */
  lemma ExtensionTwice(d: string, n: string, ext: string)
    requires '.' !in d && ext != [] && ext[0] == '.'
    ensures var rel := d + ext + "/" + n + ext;
      && Text.ReplaceFirst(rel, ext, "") == d + "/" + n + ext
      && DropSuffix(rel, ext) == d + ext + "/" + n
  {
    var tail := "/" + n + ext;
    assert d + ext + "/" + n + ext == d + ext + tail;
    FirstOccurrence(d, ext, tail);
    assert d + tail == d + "/" + n + ext;
    DropSuffixOf(d + ext + "/" + n, ext);
  }

  /** The extension is first found right after a dot-free prefix. */
  lemma FirstOccurrence(a: string, ext: string, tail: string)
    requires '.' !in a && ext != [] && ext[0] == '.'
    ensures Text.ReplaceFirst(a + ext + tail, ext, "") == a + tail
  {
    var s := a + ext + tail;
    assert s[|a|..|a| + |ext|] == ext;
    NotBefore(a, ext, tail);
    FindFromAt(s, ext, |a|);
    assert s[..|a|] == a && s[|a| + |ext|..] == tail;
  }

  /** A pattern starting with `.` does not occur inside a dot-free prefix. */
  lemma NotBefore(a: string, ext: string, tail: string)
    requires '.' !in a && ext != [] && ext[0] == '.'
    ensures forall j | 0 <= j < |a| :: !Text.OccursAt(a + ext + tail, ext, j)
  {
    var s := a + ext + tail;
    forall j | 0 <= j < |a| ensures !Text.OccursAt(s, ext, j) {
      assert s[j] == a[j];
      assert s[j..j + |ext|][0] == s[j];
    }
  }

  lemma DropSuffixOf(a: string, suf: string)
    ensures DropSuffix(a + suf, suf) == a
  {
    var s := a + suf;
    assert s[|s| - |suf|..] == suf && s[..|s| - |suf|] == a;
  }

  /** Replacing an occurrence found only at the end is dropping the suffix. */
  lemma ReplaceAtEnd(s: string, suf: string)
    requires Text.FindFrom(s, suf, 0) == Some(|s| - |suf|)
    ensures Text.ReplaceFirst(s, suf, "") == DropSuffix(s, suf)
  {
    assert Text.OccursAt(s, suf, |s| - |suf|);
    assert s[|s| - |suf|..] == suf;
    assert s[..|s| - |suf|] + "" + s[|s|..] == s[..|s| - |suf|];
  }

  /** The key path segments before case conversion. */
  function Segments(root: string, file: string): seq<string> {
    DropIndex(Text.Split(Stem(root, file), '/'))
  }

  /** The key path of `processFile`: each segment through `camelCase`. */
  function KeyPath(root: string, file: string, camel: string -> string): (r: seq<string>)
    ensures |r| == |Segments(root, file)|
  {
    var segs := Segments(root, file);
    seq(|segs|, i requires 0 <= i < |segs| => camel(segs[i]))
  }

  /** Below the root, the relative path is what follows the root and its separator. */
  lemma RelativeOf(root: string, rest: string)
    ensures Relative(root, root + "/" + rest) == rest
  {
    var file := root + "/" + rest;
    assert Text.OccursAt(file, root, 0);
    assert Text.FindFrom(file, root, 0) == Some(0);
    assert file[|root|..] == "/" + rest;
  }

  lemma DropAppend(a: string, b: string, k: nat)
    requires k <= |a|
    ensures (a + b)[k..] == a[k..] + b
  {
  }

  /** The same, for a file spelled out in full. */
  lemma RelativeAt(root: string, file: string)
    requires |root| < |file| && file[..|root|] == root && file[|root|] == '/'
    ensures Relative(root, file) == file[|root| + 1..]
  {
    assert file == root + "/" + file[|root| + 1..];
    RelativeOf(root, file[|root| + 1..]);
  }

  /** Below the root, the stem is the relative path without the extension. */
  lemma StemOf(root: string, stem: string, ext: string)
    requires Extname(root + "/" + stem + ext) == ext
    ensures Stem(root, root + "/" + stem + ext) == stem
  {
    var file := root + "/" + stem + ext;
    var k := |root| + 1;
    DropAppend(root + "/" + stem, ext, k);
    assert (root + "/" + stem)[k..] == stem;
    RelativeAt(root, file);
    var rel := stem + ext;
    assert rel[|rel| - |ext|..] == ext && rel[..|rel| - |ext|] == stem;
  }

  /**
   * A file below the root with the given extension: its key path is its
   * stem's directories and name, `_index` left out, each case-converted.
   */
  lemma KeyPathOf(root: string, stem: string, ext: string, camel: string -> string)
    requires Extname(root + "/" + stem + ext) == ext
    ensures var segs := DropIndex(Text.Split(stem, '/'));
      && |KeyPath(root, root + "/" + stem + ext, camel)| == |segs|
      && forall i | 0 <= i < |segs| :: KeyPath(root, root + "/" + stem + ext, camel)[i] == camel(segs[i])
  {
    StemOf(root, stem, ext);
  }

  /** `path.map((e, i, a) => (i === a.length - 1 ? pascalCase(e) : e))`. */
  function RefKeyPath(path: seq<string>, pascal: string -> string): (r: seq<string>)
    ensures |r| == |path|
    ensures path != [] ==> r[..|r| - 1] == path[..|path| - 1] && r[|r| - 1] == pascal(path[|path| - 1])
  {
    seq(|path|, i requires 0 <= i < |path| => if i == |path| - 1 then pascal(path[i]) else path[i])
  }

  // ---------------------------------------------------------------------
  // `loadFile` and `processFile`
  // ---------------------------------------------------------------------

  /** `YAML.parse` and `JSON.parse`: a value, or the error they throw. */
  datatype Parsers = Parsers(yaml: string -> Result<Value>, json: string -> Result<Value>)

  predicate IsMarkdown(ext: string) { ext == ".md" || ext == ".mdx" }

  predicate IsData(ext: string) { ext == ".yaml" || ext == ".yml" || ext == ".json" }

  /** The reference object `loadFile` returns for a Markdown file. */
  function MdxRef(ext: string, path: string): Value {
    Obj([Prop("ext", Str(ext)), Prop("kind", Str("mdx")), Prop("path", Str(path))])
  }

  /**
   * `loadFile`. `read` is what `readFile(file, "utf-8")` gives; a Markdown
   * file is never read, every other file is read before its extension is
   * looked at.
   */
  function LoadFile(locale: string, root: string, file: string, ext: string, ref: string,
                    read: Result<string>, parsers: Parsers): (r: Result<Value>)
    ensures IsMarkdown(ext) ==>
      r.Ok? && IsRef(r.value, ref) && Get(r.value, ref) == MdxRef(ext, Text.ReplaceFirst(file, root, locale))
    ensures !IsMarkdown(ext) && read.Err? ==> r == Err(read.error)
    ensures !IsMarkdown(ext) && !IsData(ext) && read.Ok? ==>
      r == Err(Error(PlainError, "Unknown file extension: " + ext))
    ensures (ext == ".yaml" || ext == ".yml") && read.Ok? ==> r == parsers.yaml(read.value)
    ensures ext == ".json" && read.Ok? ==> r == parsers.json(read.value)
  {
    if IsMarkdown(ext) then
      Ok(Obj([Prop(ref, MdxRef(ext, Text.ReplaceFirst(file, root, locale)))]))
    else
      var content :- read;
      if ext == ".yaml" || ext == ".yml" then parsers.yaml(content)
      else if ext == ".json" then parsers.json(content)
      else Err(Error(PlainError, "Unknown file extension: " + ext))
  }

  /** A Markdown file's result does not depend on the file system at all. */
  lemma MarkdownUnread(locale: string, root: string, file: string, ext: string, ref: string,
                       read1: Result<string>, read2: Result<string>, p1: Parsers, p2: Parsers)
    requires IsMarkdown(ext)
    ensures LoadFile(locale, root, file, ext, ref, read1, p1) == LoadFile(locale, root, file, ext, ref, read2, p2)
  {
  }

  datatype FileOptions = FileOptions(locale: string, root: string, file: string, ref: string)

  /** The namespace one file contributes. */
  datatype Namespace = Namespace(file: string, messages: Value)

  function MissingRef(o: FileOptions): Error {
    Error(PlainError, "Missing ref: " + o.ref + " in " + o.file)
  }

  /** `path.join(output, ref.path)` rejects a path that is not a string. */
  const PathNotString := Error(TypeError, "The \"path\" argument must be of type string")

  /**
   * `processFile`. `copy` is the error creating the directory or copying a
   * referenced file raised, if any (nothing is copied when the target
   * exists).
   */
  function ProcessFile(o: FileOptions, read: Result<string>, parsers: Parsers, copy: Option<Error>,
                       camel: string -> string, pascal: string -> string): (r: Result<Namespace>)
    ensures r.Ok? ==> r.value.file == o.file
  {
    var ext := Extname(o.file);
    var path := KeyPath(o.root, o.file, camel);
    var content :- LoadFile(o.locale, o.root, o.file, ext, o.ref, read, parsers);
    Store(o, content, copy, path, pascal)
  }

  /**
   * The rest of `processFile`, once the file is loaded: a reference is
   * stored under the key path with its last segment PascalCased, anything
   * else under the key path itself.
   */
  function Store(o: FileOptions, content: Value, copy: Option<Error>, path: seq<string>,
                 pascal: string -> string): (r: Result<Namespace>)
    ensures r.Ok? ==> r.value.file == o.file
  {
    if IsRef(content, o.ref) then
      var ref := Get(content, o.ref);
      if Nullish(ref) then Err(MissingRef(o))
      else if !Get(ref, "path").Str? then Err(PathNotString)
      else if copy.Some? then Err(copy.value)
      else
        var messages :- ObjectPath.DSetKeys(Obj([]), RefKeyPath(path, pascal), content, false);
        Ok(Namespace(o.file, messages))
    else
      var messages :- ObjectPath.DSetKeys(Obj([]), path, content, false);
      Ok(Namespace(o.file, messages))
  }

  /** Once the file has loaded, `processFile` is the store step. */
  lemma ProcessLoaded(o: FileOptions, read: Result<string>, parsers: Parsers, copy: Option<Error>,
                      camel: string -> string, pascal: string -> string, content: Value)
    requires LoadFile(o.locale, o.root, o.file, Extname(o.file), o.ref, read, parsers) == Ok(content)
    ensures ProcessFile(o, read, parsers, copy, camel, pascal) == Store(o, content, copy, KeyPath(o.root, o.file, camel), pascal)
  {
  }

  /** A key `dset` can store into the container it makes for it: an array is only made for an index. */
  predicate FitsFresh(k: string) {
    Text.NumberLike(k) ==> Text.IsIndex(k)
  }

  /** Keys `dset` can write into fresh containers. */
  predicate Writable(keys: seq<string>) {
    forall i | 0 <= i < |keys| :: !ObjectPath.Reserved(keys[i]) && (i > 0 ==> FitsFresh(keys[i]))
  }

  /** `dset` into a fresh object succeeds along writable keys. */
  lemma {:induction false} DSetFresh(t: Value, keys: seq<string>, val: Value)
    requires Writable(keys)
    requires t == Obj([]) || (t == Arr([]) && keys != [] && Text.IsIndex(keys[0]))
    ensures ObjectPath.DSetKeys(t, keys, val, false).Ok?
    decreases |keys|
  {
    if |keys| > 1 {
      var child := if Text.NumberLike(keys[1]) then Arr([]) else Obj([]);
      assert FitsFresh(keys[1]);
      assert Writable(keys[1..]) by {
        forall i | 0 <= i < |keys[1..]| ensures keys[1..][i] == keys[i + 1] { }
      }
      DSetFresh(child, keys[1..], val);
      DSetFreshStep(t, keys, val);
    } else if |keys| == 1 {
      assert !ObjectPath.Reserved(keys[0]);
    }
  }

  /** One step of `dset` below a key the container lacks. */
  lemma DSetFreshStep(t: Value, keys: seq<string>, val: Value)
    requires |keys| > 1 && !ObjectPath.Reserved(keys[0])
    requires t == Obj([]) || (t == Arr([]) && Text.IsIndex(keys[0]))
    requires ObjectPath.DSetKeys(if Text.NumberLike(keys[1]) then Arr([]) else Obj([]), keys[1..], val, false).Ok?
    ensures ObjectPath.DSetKeys(t, keys, val, false).Ok?
  {
    var child := if Text.NumberLike(keys[1]) then Arr([]) else Obj([]);
    if t.Obj? {
      FreshStepInto(keys, val, child);
    } else {
      FreshStepIntoArray(keys, val, child);
    }
  }

  /** The same, for an object. */
  lemma FreshStepInto(keys: seq<string>, val: Value, child: Value)
    requires |keys| > 1 && !ObjectPath.Reserved(keys[0])
    requires child == if Text.NumberLike(keys[1]) then Arr([]) else Obj([])
    requires ObjectPath.DSetKeys(child, keys[1..], val, false).Ok?
    ensures ObjectPath.DSetKeys(Obj([]), keys, val, false).Ok?
  {
  }

  /** The same, for an array at an index. */
  lemma FreshStepIntoArray(keys: seq<string>, val: Value, child: Value)
    requires |keys| > 1 && !ObjectPath.Reserved(keys[0]) && Text.IsIndex(keys[0])
    requires child == if Text.NumberLike(keys[1]) then Arr([]) else Obj([])
    requires ObjectPath.DSetKeys(child, keys[1..], val, false).Ok?
    ensures ObjectPath.DSetKeys(Arr([]), keys, val, false).Ok?
  {
    assert Get(Arr([]), keys[0]) == Undefined;
    var sub := ObjectPath.DSetKeys(child, keys[1..], val, false).value;
    assert ObjectPath.DSetKeys(Arr([]), keys, val, false) == ObjectPath.SetProp(Arr([]), keys[0], sub);
  }

  /** A writable key path is written in full: a path of several keys never stops early. */
  lemma WritableTail(keys: seq<string>)
    requires Writable(keys) && keys != []
    ensures ObjectPath.NoneReserved(keys)
  {
  }

  /** What a file that is not a reference contributes lies at its key path. */
  lemma PlainPlaced(o: FileOptions, read: Result<string>, parsers: Parsers, copy: Option<Error>,
                    camel: string -> string, pascal: string -> string, content: Value)
    requires LoadFile(o.locale, o.root, o.file, Extname(o.file), o.ref, read, parsers) == Ok(content)
    requires !IsRef(content, o.ref)
    requires var path := KeyPath(o.root, o.file, camel); path != [] && Writable(path)
    ensures ProcessFile(o, read, parsers, copy, camel, pascal).Ok?
    ensures ObjectPath.DlvKeys(ProcessFile(o, read, parsers, copy, camel, pascal).value.messages,
                    KeyPath(o.root, o.file, camel)) == content
  {
    var path := KeyPath(o.root, o.file, camel);
    ProcessLoaded(o, read, parsers, copy, camel, pascal, content);
    StoredAt(o, content, copy, path, pascal, path);
  }

  /**
   * A reference lies at its key path with the last segment PascalCased,
   * once its `path` is a string and the copy went through.
   */
  lemma RefPlaced(o: FileOptions, read: Result<string>, parsers: Parsers,
                  camel: string -> string, pascal: string -> string, content: Value)
    requires LoadFile(o.locale, o.root, o.file, Extname(o.file), o.ref, read, parsers) == Ok(content)
    requires IsRef(content, o.ref) && Get(Get(content, o.ref), "path").Str?
    requires var path := RefKeyPath(KeyPath(o.root, o.file, camel), pascal); path != [] && Writable(path)
    ensures ProcessFile(o, read, parsers, None, camel, pascal).Ok?
    ensures ObjectPath.DlvKeys(ProcessFile(o, read, parsers, None, camel, pascal).value.messages,
                    RefKeyPath(KeyPath(o.root, o.file, camel), pascal)) == content
  {
    var path := KeyPath(o.root, o.file, camel);
    ProcessLoaded(o, read, parsers, None, camel, pascal, content);
    StoredAt(o, content, None, path, pascal, RefKeyPath(path, pascal));
  }

  /**
   * A Markdown file, whatever the file system holds, becomes a reference
   * object under its PascalCased key path, pointing at the same file below
   * the locale.
   */
  lemma MarkdownPlaced(o: FileOptions, read: Result<string>, parsers: Parsers,
                       camel: string -> string, pascal: string -> string)
    requires IsMarkdown(Extname(o.file))
    requires var path := RefKeyPath(KeyPath(o.root, o.file, camel), pascal); path != [] && Writable(path)
    ensures ProcessFile(o, read, parsers, None, camel, pascal).Ok?
    ensures ObjectPath.DlvKeys(ProcessFile(o, read, parsers, None, camel, pascal).value.messages,
                    RefKeyPath(KeyPath(o.root, o.file, camel), pascal))
      == Obj([Prop(o.ref, MdxRef(Extname(o.file), Text.ReplaceFirst(o.file, o.root, o.locale)))])
  {
    var ext := Extname(o.file);
    var mdx := MdxRef(ext, Text.ReplaceFirst(o.file, o.root, o.locale));
    var content := Obj([Prop(o.ref, mdx)]);
    assert LoadFile(o.locale, o.root, o.file, ext, o.ref, read, parsers) == Ok(content);
    assert Get(content, o.ref) == mdx;
    MdxPath(ext, Text.ReplaceFirst(o.file, o.root, o.locale));
    RefPlaced(o, read, parsers, camel, pascal, content);
  }

  /** The reference object's `path` is the relocated file. */
  lemma MdxPath(ext: string, path: string)
    ensures Get(MdxRef(ext, path), "path") == Str(path)
  {
    var ps := MdxRef(ext, path).props;
    assert ps[0].key != "path" by { assert |ps[0].key| == 3; }
    assert ps[1].key != "path" by { assert ps[1].key[0] == 'k'; }
    assert FindProp(ps, "path") == FindProp(ps[1..], "path") == FindProp(ps[2..], "path");
  }

  /** The store step writes the content where the keys say, into an empty namespace. */
  lemma StoredAt(o: FileOptions, content: Value, copy: Option<Error>, path: seq<string>,
                 pascal: string -> string, keys: seq<string>)
    requires keys != [] && Writable(keys)
    requires if IsRef(content, o.ref)
      then Get(Get(content, o.ref), "path").Str? && copy.None? && keys == RefKeyPath(path, pascal)
      else keys == path
    ensures Store(o, content, copy, path, pascal).Ok?
    ensures ObjectPath.DlvKeys(Store(o, content, copy, path, pascal).value.messages, keys) == content
  {
    DSetFresh(Obj([]), keys, content);
    WritableTail(keys);
    ObjectPath.DSetThenDlv(Obj([]), keys, content, false);
  }

  /** A reference whose value is null or undefined is refused, naming the key and the file. */
  lemma MissingRefRefused(o: FileOptions, read: Result<string>, parsers: Parsers, copy: Option<Error>,
                          camel: string -> string, pascal: string -> string, content: Value)
    requires LoadFile(o.locale, o.root, o.file, Extname(o.file), o.ref, read, parsers) == Ok(content)
    requires IsRef(content, o.ref) && Nullish(Get(content, o.ref))
    ensures ProcessFile(o, read, parsers, copy, camel, pascal) == Err(MissingRef(o))
  {
    ProcessLoaded(o, read, parsers, copy, camel, pascal, content);
  }

  /**
   * A file whose key path is empty (an `_index` file directly under the
   * root) contributes an empty namespace: `dset` with no keys writes nothing.
   */
  lemma EmptyPathDropped(o: FileOptions, read: Result<string>, parsers: Parsers,
                         camel: string -> string, pascal: string -> string, content: Value)
    requires LoadFile(o.locale, o.root, o.file, Extname(o.file), o.ref, read, parsers) == Ok(content)
    requires Segments(o.root, o.file) == []
    requires IsRef(content, o.ref) ==> Get(Get(content, o.ref), "path").Str?
    ensures ProcessFile(o, read, parsers, None, camel, pascal) == Ok(Namespace(o.file, Obj([])))
  {
    ProcessLoaded(o, read, parsers, None, camel, pascal, content);
    StoredNowhere(o, content, KeyPath(o.root, o.file, camel), pascal);
  }

  /** With no keys, the store step leaves the namespace empty. */
  lemma StoredNowhere(o: FileOptions, content: Value, path: seq<string>, pascal: string -> string)
    requires path == [] && (IsRef(content, o.ref) ==> Get(Get(content, o.ref), "path").Str?)
    ensures Store(o, content, None, path, pascal) == Ok(Namespace(o.file, Obj([])))
  {
    assert RefKeyPath(path, pascal) == [];
  }

  /** The root `_index` file is such a file, whatever its extension. */
  lemma RootIndexEmpty(root: string, ext: string)
    requires |ext| >= 2 && ext[0] == '.' && '.' !in ext[1..] && '/' !in ext
    ensures Segments(root, root + "/" + "_index" + ext) == []
  {
    ExtnameOf(root, "_index", ext);
    StemOf(root, "_index", ext);
    Text.SplitNoSep("_index", '/');
    var segs := ["_index"];
    assert segs[0] == "_index" && segs[1..] == [];
    assert DropIndex(segs) == [] + DropIndex([]);
  }

  // ---------------------------------------------------------------------
  // `writeChangedFile`
  // ---------------------------------------------------------------------

  /** An error from the file system; `code` is its `code` property, when it has one. */
  datatype FsError = FsError(code: Option<string>, message: string)

  /** What the file system holds at a path: a file, or something reading fails on. */
  datatype Entry = File(text: string) | Unreadable(error: FsError)

  datatype ReadOutcome = Contents(text: string) | Failure(error: FsError)

  datatype Written = Wrote(changed: bool) | Threw(error: FsError)

  const NoEntry := FsError(Some("ENOENT"), "no such file or directory")

  /** `readFile(file, "utf-8")`. */
  function ReadFile(entries: map<string, Entry>, file: string): ReadOutcome {
    if file !in entries then Failure(NoEntry)
    else match entries[file]
      case File(text) => Contents(text)
      case Unreadable(e) => Failure(e)
  }

  /** Reading fails with ENOENT: the file reads as empty. */
  predicate Absent(entries: map<string, Entry>, file: string) {
    file !in entries || (entries[file].Unreadable? && entries[file].error.code == Some("ENOENT"))
  }

  /** Reading fails with an error other than ENOENT, which `writeChangedFile` rethrows. */
  predicate ReadThrows(entries: map<string, Entry>, file: string) {
    file in entries && entries[file].Unreadable? && !Absent(entries, file)
  }

  /** The file already holds `content`, a missing file counting as empty. */
  predicate UpToDate(entries: map<string, Entry>, file: string, content: string) {
    (file in entries && entries[file] == File(content)) || (Absent(entries, file) && content == "")
  }

  /**
   * The outcome of `writeChangedFile`: unchanged content is not written,
   * and a missing file counts as empty, so empty content is never written
   * to a missing file; any other read error is thrown. `writeError` is
   * what `mkdir` or `writeFile` throws, should they be called.
   */
  function WriteOutcome(entries: map<string, Entry>, file: string, content: string, writeError: Option<FsError>): (r: Written)
    ensures r == Wrote(false) <==> !ReadThrows(entries, file) && UpToDate(entries, file, content)
    ensures r == Wrote(true) <==> !ReadThrows(entries, file) && !UpToDate(entries, file, content) && writeError.None?
    ensures ReadThrows(entries, file) ==> r == Threw(entries[file].error)
    ensures !ReadThrows(entries, file) && !UpToDate(entries, file, content) && writeError.Some? ==>
      r == Threw(writeError.value)
  {
    var existing :=
      match ReadFile(entries, file)
      case Contents(text) => Contents(text)
      case Failure(e) => if e.code == Some("ENOENT") then Contents("") else Failure(e);
    match existing
    case Failure(e) => Threw(e)
    case Contents(text) =>
      if content == text then Wrote(false)
      else if writeError.Some? then Threw(writeError.value)
      else Wrote(true)
  }

  /** Writing is idempotent: the same content a second time changes nothing. */
  lemma WriteSettles(entries: map<string, Entry>, file: string, content: string, again: Option<FsError>)
    requires WriteOutcome(entries, file, content, None) == Wrote(true)
    ensures WriteOutcome(entries[file := File(content)], file, content, again) == Wrote(false)
    ensures ReadFile(entries[file := File(content)], file) == Contents(content)
  {
  }

  /** The file system the compiler writes its output to. */
  class Disk {
    var entries: map<string, Entry>

    constructor(entries: map<string, Entry>)
      ensures this.entries == entries
    {
      this.entries := entries;
    }

    /** `writeChangedFile`: writes `content` unless the file already holds it. */
    method WriteChangedFile(file: string, content: string, writeError: Option<FsError>) returns (r: Written)
      modifies this
      ensures r == WriteOutcome(old(entries), file, content, writeError)
      ensures entries == if r == Wrote(true) then old(entries)[file := File(content)] else old(entries)
    {
      var existing: string;
      match ReadFile(entries, file) {
        case Contents(text) =>
          existing := text;
        case Failure(e) =>
          if e.code == Some("ENOENT") {
            existing := "";
          } else {
            return Threw(e);
          }
      }
      if content == existing {
        return Wrote(false);
      }
      if writeError.Some? {
        return Threw(writeError.value);
      }
      entries := entries[file := File(content)];
      return Wrote(true);
    }
  }
}
