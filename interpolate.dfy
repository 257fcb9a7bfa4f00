/**
 * `Interpolate<S, Values>` of src/types/Interpolate.ts: the string type a
 * template becomes once its `{Key}`s are replaced. A number in `Values`
 * appears by its decimal spelling, so values are strings here.
 */
module Interpolate {
  import opened Wrappers
  import Text
  import TemplateParam

  /**
   * The first `{Key}` is replaced by `values[Key]` and the rest is
   * interpolated in turn; a key that is not in `values` makes the whole
   * type `never` (`None`).
   */
  function Interpolate(s: string, values: map<string, string>): (r: Option<string>)
    ensures TemplateParam.FirstBraces(s).None? ==> r == Some(s)
    decreases |s|
  {
    match TemplateParam.FirstBraces(s)
    case None => Some(s)
    case Some(b) =>
      if b.inner !in values then None
      else match Interpolate(b.after, values)
        case None => None
        case Some(tail) => Some(b.before + values[b.inner] + tail)
  }

  /** The result exists exactly when every key, read verbatim, has a value. */
  lemma {:induction false} InterpolateDefined(s: string, values: map<string, string>)
    ensures Interpolate(s, values).Some? <==> forall k | k in TemplateParam.Scan(s) :: k in values
    decreases |s|
  {
    match TemplateParam.FirstBraces(s)
    case None =>
      assert TemplateParam.Scan(s) == [];
    case Some(b) =>
      InterpolateDefined(b.after, values);
      assert TemplateParam.Scan(s) == [b.inner] + TemplateParam.Scan(b.after);
  }

  /**
   * Giving every key its own `{Key}` back as the value reproduces the
   * template: the text around the placeholders is copied verbatim.
   */
  lemma {:induction false} InterpolateSelf(s: string, values: map<string, string>)
    requires forall k | k in TemplateParam.Scan(s) :: k in values && values[k] == "{" + k + "}"
    ensures Interpolate(s, values) == Some(s)
    decreases |s|
  {
    match TemplateParam.FirstBraces(s)
    case None =>
    case Some(b) =>
      assert TemplateParam.Scan(s) == [b.inner] + TemplateParam.Scan(b.after);
      InterpolateSelf(b.after, values);
      assert b.before + values[b.inner] + b.after == s;
  }

  /**
   * Keys are not trimmed: a placeholder whose text has a value only once
   * trimmed (`{ name }` with a value for `name`) leaves no result.
   */
  lemma KeysVerbatim(before: string, key: string, after: string, values: map<string, string>)
    requires '{' !in before && '}' !in key
    requires Text.Trim(key) in values && key !in values
    ensures Interpolate(before + "{" + key + "}" + after, values) == None
  {
    TemplateParam.ScanPieces(before, key, after);
    InterpolateDefined(before + "{" + key + "}" + after, values);
  }
}
