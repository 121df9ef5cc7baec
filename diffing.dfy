/** The diff step every generation shares: serialise `before`, serialise `after`,
    then diff the two texts line by line with three lines of context. The first
    failure wins, so an error of `before` hides one of `after`. */
module Diffing {
  import opened Wrappers
  import opened Tfjson
  import opened Foreign

  /** difflib.UnifiedDiff's Context field. */
  const Context: nat := 3

  /** The error chain over two serialisations that may have failed. */
  function DiffTexts(lib: Lib, before: Option<string>, after: Option<string>): (r: Result<string>)
    ensures before.None? ==> r == Err(BeforeInvalid)
    ensures before.Some? && after.None? ==> r == Err(AfterInvalid)
    ensures r.Ok? <==> before.Some? && after.Some? && lib.unifiedDiff(before.value, after.value, Context).Some?
    ensures r.Ok? ==> r.value == lib.unifiedDiff(before.value, after.value, Context).value
    ensures r.Err? ==> r.error in {BeforeInvalid, AfterInvalid, DiffFailed}
  {
    match before
    case None => Err(BeforeInvalid)
    case Some(b) =>
      match after
      case None => Err(AfterInvalid)
      case Some(a) =>
        match lib.unifiedDiff(b, a, Context)
        case None => Err(DiffFailed)
        case Some(t) => Ok(t)
  }

  /** The diff of the earlier generations: both sides through
      json.MarshalIndent(v, "", "  "), no rewriting of the texts. */
  function IndentedDiff(lib: Lib, c: Change): (r: Result<string>)
    ensures MarshalIndent(lib, c.before).None? ==> r == Err(BeforeInvalid)
    ensures MarshalIndent(lib, c.before).Some? && MarshalIndent(lib, c.after).None? ==> r == Err(AfterInvalid)
    ensures r.Ok? ==> MarshalIndent(lib, c.before).Some? && MarshalIndent(lib, c.after).Some?
    ensures r.Ok? ==> Some(r.value) == lib.unifiedDiff(lib.marshal(c.before, true).value, lib.marshal(c.after, true).value, 3)
  {
    DiffTexts(lib, MarshalIndent(lib, c.before), MarshalIndent(lib, c.after))
  }
}
