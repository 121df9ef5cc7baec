/** internal/format/format_unknown.go: for update actions, every top-level key
    that after_unknown flags with a boolean is overwritten in `after` by the
    placeholder "(known after apply)". The plan is changed in place. */
module FormatUnknown {
  import opened Wrappers
  import opened Tfjson

  const KnownAfterApply: string := "(known after apply)"

  /** What the unchecked type assertions of formatUnknownChange demand: for an
      update, both `after` and `after_unknown` are JSON objects. */
  predicate Normalizable(c: Change)
  {
    IsUpdate(c.actions) ==> c.after.Obj? && c.afterUnknown.Obj?
  }

  /** The keys of an object-valued after_unknown whose flag is a boolean, true or false. */
  function Flagged(unknown: map<string, Json>): (ks: set<string>)
    ensures forall k :: k in ks <==> k in unknown && unknown[k].Bool?
  {
    set k | k in unknown && unknown[k].Bool?
  }

  /** The change formatUnknownChange leaves behind. */
  function NormalizeUnknown(c: Change): (r: Change)
    requires Normalizable(c)
    ensures !IsUpdate(c.actions) ==> r == c
    ensures r.actions == c.actions && r.before == c.before && r.afterUnknown == c.afterUnknown
    ensures r.beforeSensitive == c.beforeSensitive && r.afterSensitive == c.afterSensitive
    ensures IsUpdate(c.actions) ==>
      && r.after.Obj?
      && r.after.fields.Keys == c.after.fields.Keys + Flagged(c.afterUnknown.fields)
      && (forall k :: k in Flagged(c.afterUnknown.fields) ==> r.after.fields[k] == Str(KnownAfterApply))
      && (forall k :: k in c.after.fields && k !in Flagged(c.afterUnknown.fields) ==> r.after.fields[k] == c.after.fields[k])
  {
    if IsUpdate(c.actions) then
      c.(after := Obj(c.after.fields + map k | k in Flagged(c.afterUnknown.fields) :: Str(KnownAfterApply)))
    else
      c
  }

  /** Normalising twice is normalising once. */
  lemma NormalizeIdempotent(c: Change)
    requires Normalizable(c)
    ensures Normalizable(NormalizeUnknown(c))
    ensures NormalizeUnknown(NormalizeUnknown(c)) == NormalizeUnknown(c)
  {
    var once := NormalizeUnknown(c);
    if IsUpdate(c.actions) {
      var twice := NormalizeUnknown(once);
      assert twice.after.fields == once.after.fields;
    }
  }

  /** formatUnknownChange: for an update, a loop over after_unknown (in Go's
      unspecified map order) that overwrites the after map key by key. */
  method FormatUnknownChange(c: Change) returns (r: Change)
    requires Normalizable(c)
    ensures r == NormalizeUnknown(c)
  {
    if !IsUpdate(c.actions) {
      return c;
    }
    var unknown := c.afterUnknown.fields;
    var after := c.after.fields;
    var todo := unknown.Keys;
    while todo != {}
      invariant todo <= unknown.Keys
      invariant after.Keys == c.after.fields.Keys + (Flagged(unknown) - todo)
      invariant forall k :: k in Flagged(unknown) - todo ==> after[k] == Str(KnownAfterApply)
      invariant forall k :: k in after && k !in Flagged(unknown) - todo ==> after[k] == c.after.fields[k]
      decreases todo
    {
      var k :| k in todo;
      if unknown[k].Bool? {
        after := after[k := Str(KnownAfterApply)];
      }
      todo := todo - {k};
    }
    r := c.(after := Obj(after));
    assert r.after.fields == NormalizeUnknown(c).after.fields;
  }

  /** A pointer to a plan whose resource changes are updated in place. */
  class PlanRef {
    var resourceChanges: seq<ResourceChange>

    constructor (p: Plan)
      ensures resourceChanges == p.resourceChanges
    {
      resourceChanges := p.resourceChanges;
    }
  }

  /** FormatUnknownPlan: a nil plan is an error; otherwise every change is
      normalised in place, order and count are kept, and the same plan is returned. */
  method FormatUnknownPlan(plan: PlanRef?) returns (r: Result<PlanRef>)
    requires plan != null ==> forall i :: 0 <= i < |plan.resourceChanges| ==> Normalizable(plan.resourceChanges[i].change)
    modifies plan
    ensures plan == null ==> r == Err(NilPlan)
    ensures plan != null ==> r == Ok(plan)
    ensures plan != null ==> |plan.resourceChanges| == |old(plan.resourceChanges)|
    ensures plan != null ==> forall i :: 0 <= i < |plan.resourceChanges| ==>
      plan.resourceChanges[i] == old(plan.resourceChanges[i]).(change := NormalizeUnknown(old(plan.resourceChanges[i].change)))
  {
    if plan == null {
      return Err(NilPlan);
    }
    var i := 0;
    while i < |plan.resourceChanges|
      invariant 0 <= i <= |plan.resourceChanges| == |old(plan.resourceChanges)|
      invariant forall j :: 0 <= j < i ==>
        plan.resourceChanges[j] == old(plan.resourceChanges[j]).(change := NormalizeUnknown(old(plan.resourceChanges[j].change)))
      invariant plan.resourceChanges[i..] == old(plan.resourceChanges)[i..]
    {
      assert plan.resourceChanges[i] == old(plan.resourceChanges)[i];
      var c := FormatUnknownChange(plan.resourceChanges[i].change);
      plan.resourceChanges := plan.resourceChanges[i := plan.resourceChanges[i].(change := c)];
      i := i + 1;
    }
    return Ok(plan);
  }
}
