/** internal/terraform/unified_diff_renderer.go: the per-resource renderer of
    the latest generation. It heads a diff with the raw address, and its HTML
    escaping comes from the flag it was built with, not from shared state. */
module TerraformDiffRenderer {
  import opened Wrappers
  import opened Tfjson
  import opened Foreign
  import opened Text
  import opened Classify
  import opened Diffing
  import TerraformPlan

  /** NewUnifiedDiffRenderer's result: the change and the escaping flag, fixed. */
  datatype UnifiedDiffRenderer = UnifiedDiffRenderer(resourceChange: ResourceChange, enableEscapeHTML: bool)

  /** Header: "<address> <suffix>", the address used verbatim. */
  function Header(r: UnifiedDiffRenderer): string
  {
    r.resourceChange.address + " " + Suffix(r.resourceChange.change.actions)
  }

  /** Render: the encoder runs with the renderer's own flag, both texts go through
      the escape rewrite, and the diff has three lines of context; the first of
      the before, after and diff failures is reported. This is the same text
      GetUnifiedDiffString of plan.go produces with that flag. */
  function Render(lib: Lib, r: UnifiedDiffRenderer): (res: Result<string>)
    ensures res == TerraformPlan.GetUnifiedDiffString(lib, TerraformPlan.ResourceChangeData(r.resourceChange), r.enableEscapeHTML)
    ensures Encode(lib, r.resourceChange.change.before, r.enableEscapeHTML).None? ==> res == Err(BeforeInvalid)
    ensures (Encode(lib, r.resourceChange.change.before, r.enableEscapeHTML).Some? &&
             Encode(lib, r.resourceChange.change.after, r.enableEscapeHTML).None?) ==> res == Err(AfterInvalid)
  {
    var c := r.resourceChange.change;
    DiffTexts(lib,
      TerraformPlan.Unescaped(Encode(lib, c.before, r.enableEscapeHTML)),
      TerraformPlan.Unescaped(Encode(lib, c.after, r.enableEscapeHTML)))
  }

  /** The address Terraform gives a resource without count or for_each: its type
      and name, behind "<module address>." when it lives in a module. */
  predicate PlainAddress(rc: ResourceChange)
  {
    rc.address == (if rc.moduleAddress == "" then "" else rc.moduleAddress + ".") + rc.resourceType + "." + rc.name
  }

  /** The two header schemes of the latest generation agree on plainly addressed
      resources, whatever the escaping flag. */
  lemma HeadersAgree(rc: ResourceChange, enableEscapeHTML: bool)
    requires PlainAddress(rc)
    ensures Header(UnifiedDiffRenderer(rc, enableEscapeHTML)) == TerraformPlan.Header(TerraformPlan.ResourceChangeData(rc))
  {
    if rc.moduleAddress == "" {
      assert "" + rc.resourceType == rc.resourceType;
    }
  }

  /** The header names the address it was given and ends with the suffix, which
      is "" exactly when no bucket matches. */
  lemma HeaderShape(r: UnifiedDiffRenderer)
    ensures StartsWith(Header(r), r.resourceChange.address + " ")
    ensures EndsWith(Header(r), Suffix(r.resourceChange.change.actions))
    ensures Header(r) == r.resourceChange.address + " " <==> BucketOf(r.resourceChange.change.actions).None?
  {
  }
}
