/** internal/pretty_print/pretty_json.go: the same formatter as
    internal/format/format_json.go, with the two tests of its guard swapped. */
module PrettyPrint {
  import opened Wrappers
  import opened Tfjson
  import opened Foreign
  import opened ValueWalk
  import Format

  /** The string case of prettyChangeValue: json.Unmarshal first, json.Valid second. */
  function PrettyString(lib: Lib, s: string): (r: Option<string>)
    ensures !(lib.unmarshals(s) && lib.valid(s)) ==> r == Some(s)
    ensures lib.unmarshals(s) && lib.valid(s) ==> r == lib.indent(s)
  {
    if lib.unmarshals(s) && lib.valid(s) then lib.indent(s) else Some(s)
  }

  function Leaf(lib: Lib): string -> Option<string>
  {
    s => PrettyString(lib, s)
  }

  /** prettyChangeValue. */
  method PrettyChangeValue(lib: Lib, v: Json) returns (r: Option<Json>)
    ensures v.Str? && !(lib.unmarshals(v.s) && lib.valid(v.s)) ==> r == Some(v)
    ensures (v.Null? || v.Bool? || v.Num?) ==> r == Some(v)
    ensures r.Some? ==> SameShape(v, r.value)
    ensures r == Walk(Leaf(lib), v)
  {
    r := WalkValue(Leaf(lib), v);
    if r.Some? {
      WalkKeepsShape(Leaf(lib), v);
    }
  }

  /** prettyChange. */
  method PrettyChange(lib: Lib, c: Change) returns (r: Option<Change>)
    ensures r == WalkChange(Leaf(lib), c)
  {
    r := WalkChangeValues(Leaf(lib), c);
  }

  /** PrettyPrintPlan: nil check, then the per-index loop over the copied plan. */
  method PrettyPrintPlan(lib: Lib, p: Option<Plan>) returns (r: Result<Plan>)
    ensures p.None? ==> r == Err(NilPlan)
    ensures p.Some? ==> r == (match WalkPlan(Leaf(lib), p.value)
                               case None => Err(EncodingFailed)
                               case Some(q) => Ok(q))
  {
    if p.None? {
      return Err(NilPlan);
    }
    var result := WalkPlanChanges(Leaf(lib), p.value);
    if result.None? {
      return Err(EncodingFailed);
    }
    return Ok(result.value);
  }

  /** The two formatters agree on every value and on every plan: swapping the
      operands of the guard's conjunction changes nothing. */
  lemma PrettyAgreesWithFormat(lib: Lib, v: Json, p: Plan)
    ensures Walk(Leaf(lib), v) == Walk(Format.Leaf(lib), v)
    ensures WalkPlan(Leaf(lib), p) == WalkPlan(Format.Leaf(lib), p)
  {
    forall s ensures Leaf(lib)(s) == Format.Leaf(lib)(s) {
      assert Leaf(lib)(s) == PrettyString(lib, s);
      assert Format.Leaf(lib)(s) == Format.FormatString(lib, s);
    }
    WalkAgrees(Leaf(lib), Format.Leaf(lib), v);
    WalkPlanAgrees(Leaf(lib), Format.Leaf(lib), p);
  }
}
