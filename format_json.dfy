/** internal/format/format_json.go: pretty-print every string of a plan's
    before/after values that is itself a JSON document. */
module Format {
  import opened Wrappers
  import opened Tfjson
  import opened Foreign
  import opened ValueWalk

  /** The string case of formatJsonChangeValue. The guard asks json.Valid first
      and json.Unmarshal second; a JSON string becomes its two-space-indented
      re-serialisation, any other string is kept. */
  function FormatString(lib: Lib, s: string): (r: Option<string>)
    ensures !(lib.valid(s) && lib.unmarshals(s)) ==> r == Some(s)
    ensures lib.valid(s) && lib.unmarshals(s) ==> r == lib.indent(s)
  {
    if lib.valid(s) && lib.unmarshals(s) then lib.indent(s) else Some(s)
  }

  function Leaf(lib: Lib): string -> Option<string>
  {
    s => FormatString(lib, s)
  }

  /** formatJsonChangeValue: the tree walk with the leaf above. A string that is
      not JSON comes back unchanged; numbers, booleans and null pass through. */
  method FormatJsonChangeValue(lib: Lib, v: Json) returns (r: Option<Json>)
    ensures v.Str? && !(lib.valid(v.s) && lib.unmarshals(v.s)) ==> r == Some(v)
    ensures v.Str? && lib.valid(v.s) && lib.unmarshals(v.s) ==>
      (r.Some? <==> lib.indent(v.s).Some?) && (r.Some? ==> r.value == Str(lib.indent(v.s).value))
    ensures (v.Null? || v.Bool? || v.Num?) ==> r == Some(v)
    ensures r.Some? ==> SameShape(v, r.value)
    ensures r == Walk(Leaf(lib), v)
  {
    r := WalkValue(Leaf(lib), v);
    if r.Some? {
      WalkKeepsShape(Leaf(lib), v);
    }
  }

  /** formatJsonChange: rewrites `before` then `after` of a copy; everything else is copied. */
  method FormatJsonChange(lib: Lib, c: Change) returns (r: Option<Change>)
    ensures r == WalkChange(Leaf(lib), c)
  {
    r := WalkChangeValues(Leaf(lib), c);
  }

  /** The result FormatJsonPlan promises: an error for a nil plan or for any
      failing element, otherwise a plan with the same resource changes in the
      same order, each with only its before/after values rewritten. */
  function Formatted(lib: Lib, p: Option<Plan>): (r: Result<Plan>)
    ensures p.None? ==> r == Err(NilPlan)
    ensures r.Err? ==> r.error == NilPlan || r.error == EncodingFailed
    ensures p.Some? ==> (r.Ok? <==> forall i :: 0 <= i < |p.value.resourceChanges| ==>
      WalkChange(Leaf(lib), p.value.resourceChanges[i].change).Some?)
    ensures r.Ok? ==> |r.value.resourceChanges| == |p.value.resourceChanges|
    ensures r.Ok? ==> forall i :: 0 <= i < |p.value.resourceChanges| ==>
      var old_ := p.value.resourceChanges[i];
      var new_ := r.value.resourceChanges[i];
      && new_.address == old_.address
      && new_.moduleAddress == old_.moduleAddress
      && new_.previousAddress == old_.previousAddress
      && new_.resourceType == old_.resourceType
      && new_.name == old_.name
      && new_.change.actions == old_.change.actions
      && new_.change.afterUnknown == old_.change.afterUnknown
      && new_.change.beforeSensitive == old_.change.beforeSensitive
      && new_.change.afterSensitive == old_.change.afterSensitive
      && Walk(Leaf(lib), old_.change.before) == Some(new_.change.before)
      && Walk(Leaf(lib), old_.change.after) == Some(new_.change.after)
  {
    match p
    case None => Err(NilPlan)
    case Some(plan) =>
      match WalkPlan(Leaf(lib), plan)
      case None => Err(EncodingFailed)
      case Some(q) => Ok(q)
  }

  /** FormatJsonPlan: nil check, then the per-index loop over the (value-)copied plan. */
  method FormatJsonPlan(lib: Lib, p: Option<Plan>) returns (r: Result<Plan>)
    ensures r == Formatted(lib, p)
  {
    if p.None? {
      return Err(NilPlan);
    }
    var result := WalkPlanChanges(Leaf(lib), p.value);
    if result.None? {
      return Err(EncodingFailed);
    }
    return Ok(result.value);
  }

  /** If indenting a JSON document yields a JSON document that indents to itself,
      formatting an already formatted value changes nothing. */
  lemma FormatIdempotent(lib: Lib, v: Json)
    requires forall s, t :: lib.indent(s) == Some(t) ==> lib.valid(t) && lib.unmarshals(t) && lib.indent(t) == Some(t)
    requires Walk(Leaf(lib), v).Some?
    ensures Walk(Leaf(lib), Walk(Leaf(lib), v).value) == Walk(Leaf(lib), v)
  {
    forall s, t | Leaf(lib)(s) == Some(t) ensures Leaf(lib)(t) == Some(t) {
      assert FormatString(lib, s) == Some(t);
    }
    WalkIdempotent(Leaf(lib), v);
  }
}
