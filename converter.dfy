/** internal/converter: the generation before internal/terraform. Counts are
    stored next to the address lists, each entry carries its header suffix, the
    diff is taken over json.MarshalIndent output without any rewriting, blocks
    use a three-backtick fence and headers never show the module address. */
module Converter {
  import opened Wrappers
  import opened Tfjson
  import opened Foreign
  import opened Text
  import opened Classify
  import opened Report
  import opened Diffing
  import TerraformPlan

  datatype ResourceChangeData = ResourceChangeData(resourceChange: ResourceChange, headerSuffix: string)

  datatype PlanData = PlanData(
    createdCount: nat,
    updatedCount: nat,
    deletedCount: nat,
    replacedCount: nat,
    createdAddresses: seq<string>,
    updatedAddresses: seq<string>,
    deletedAddresses: seq<string>,
    replacedAddresses: seq<string>,
    resourceChanges: seq<ResourceChangeData>)

  /** Backquote: the fence of every block, three backticks. */
  function Backquote(d: ResourceChangeData): (s: string)
    ensures |s| == 3 && forall i :: 0 <= i < |s| ==> s[i] == '`'
  {
    "```"
  }

  /** GetUnifiedDiffString: the indented serialisations of before and after,
      diffed as they are (no escape rewrite) with context 3. */
  function GetUnifiedDiffString(lib: Lib, d: ResourceChangeData): (r: Result<string>)
    ensures r == IndentedDiff(lib, d.resourceChange.change)
    ensures r.Ok? ==> Some(r.value) == lib.unifiedDiff(lib.marshal(d.resourceChange.change.before, true).value,
                                                       lib.marshal(d.resourceChange.change.after, true).value, 3)
  {
    IndentedDiff(lib, d.resourceChange.change)
  }

  function Entries(rcs: seq<ResourceChange>): (es: seq<ResourceChangeData>)
    ensures |es| == |rcs|
    ensures forall i :: 0 <= i < |rcs| ==> es[i] == ResourceChangeData(rcs[i], Suffix(rcs[i].change.actions))
  {
    seq(|rcs|, i requires 0 <= i < |rcs| => ResourceChangeData(rcs[i], Suffix(rcs[i].change.actions)))
  }

  /** The plan data NewPlanData builds. */
  function Classified(rcs: seq<ResourceChange>): PlanData
  {
    var add, change := BucketChanges(rcs, Created), BucketChanges(rcs, Updated);
    var destroy, replace := BucketChanges(rcs, Deleted), BucketChanges(rcs, Replaced);
    PlanData(|add|, |change|, |destroy|, |replace|,
      Addresses(add), Addresses(change), Addresses(destroy), Addresses(replace),
      Entries(KeptChanges(rcs)))
  }

  /** Every count is the length of its list, and the entries are the kept
      changes, each with the suffix of its bucket ("" when none matched). */
  lemma ClassifiedShape(rcs: seq<ResourceChange>, rc: ResourceChange, suffix: string)
    ensures var d := Classified(rcs);
      && d.createdCount == |d.createdAddresses| && d.updatedCount == |d.updatedAddresses|
      && d.deletedCount == |d.deletedAddresses| && d.replacedCount == |d.replacedAddresses|
    ensures ResourceChangeData(rc, suffix) in Classified(rcs).resourceChanges <==>
      rc in rcs && Kept(rc) && suffix == Suffix(rc.change.actions)
  {
    KeptMembers(rcs, rc);
    var kept := KeptChanges(rcs);
    if ResourceChangeData(rc, suffix) in Entries(kept) {
      var i :| 0 <= i < |kept| && Entries(kept)[i] == ResourceChangeData(rc, suffix);
      assert kept[i] == rc;
    }
    if rc in kept && suffix == Suffix(rc.change.actions) {
      var i :| 0 <= i < |kept| && kept[i] == rc;
      assert Entries(kept)[i] == ResourceChangeData(rc, suffix);
    }
  }

  lemma EntriesAppend(rcs: seq<ResourceChange>, rc: ResourceChange)
    ensures Entries(rcs + [rc]) == Entries(rcs) + [ResourceChangeData(rc, Suffix(rc.change.actions))]
  {
  }

  /** NewPlanData: one pass over the changes; it never fails. */
  method NewPlanData(plan: Plan) returns (r: Result<PlanData>)
    ensures r.Ok?
    ensures r == Ok(Classified(plan.resourceChanges))
  {
    var rcs := plan.resourceChanges;
    var add, change, destroy, replace: seq<string> := [], [], [], [];
    var diffs: seq<ResourceChangeData> := [];
    var i := 0;
    while i < |rcs|
      invariant 0 <= i <= |rcs|
      invariant add == Addresses(BucketChanges(rcs[..i], Created))
      invariant change == Addresses(BucketChanges(rcs[..i], Updated))
      invariant destroy == Addresses(BucketChanges(rcs[..i], Deleted))
      invariant replace == Addresses(BucketChanges(rcs[..i], Replaced))
      invariant diffs == Entries(KeptChanges(rcs[..i]))
    {
      var c := rcs[i];
      ClassifyStep(rcs, i, Created);
      ClassifyStep(rcs, i, Updated);
      ClassifyStep(rcs, i, Deleted);
      ClassifyStep(rcs, i, Replaced);
      if IsNoOp(c.change.actions) || IsRead(c.change.actions) {
        i := i + 1;
        continue;
      }
      var headerSuffix := "";
      if IsCreate(c.change.actions) {
        AddressesAppend(BucketChanges(rcs[..i], Created), c);
        add := add + [c.address];
        headerSuffix := "will be created";
      } else if IsUpdate(c.change.actions) {
        AddressesAppend(BucketChanges(rcs[..i], Updated), c);
        change := change + [c.address];
        headerSuffix := "will be updated in-place";
      } else if IsDelete(c.change.actions) {
        AddressesAppend(BucketChanges(rcs[..i], Deleted), c);
        destroy := destroy + [c.address];
        headerSuffix := "will be destroyed";
      } else if IsReplace(c.change.actions) {
        AddressesAppend(BucketChanges(rcs[..i], Replaced), c);
        replace := replace + [c.address];
        headerSuffix := "will be replaced";
      }
      EntriesAppend(KeptChanges(rcs[..i]), c);
      diffs := diffs + [ResourceChangeData(c, headerSuffix)];
      i := i + 1;
    }
    assert rcs[..i] == rcs;
    return Ok(PlanData(|add|, |change|, |destroy|, |replace|, add, change, destroy, replace, diffs));
  }

  /** The `# ...` line of a block: type and name, never the module address. */
  function Header(d: ResourceChangeData): string
  {
    d.resourceChange.resourceType + "." + d.resourceChange.name + " " + d.headerSuffix
  }

  /** This header and the latest generation's differ exactly for resources in a module. */
  lemma HeaderDropsModule(rc: ResourceChange)
    ensures Header(ResourceChangeData(rc, Suffix(rc.change.actions))) == TerraformPlan.Header(TerraformPlan.ResourceChangeData(rc))
        <==> rc.moduleAddress == ""
  {
    TerraformPlan.HeaderShape(TerraformPlan.ResourceChangeData(rc));
  }

  function EntryBlock(d: ResourceChangeData, diff: string): string
  {
    Block(Backquote(d), Header(d), diff)
  }

  /** planTemplateBody: the stored counts in the summary line, the four
      sections, then the details section over the given blocks. */
  function Markdown(d: PlanData, blocks: seq<string>): string
  {
    Document(
      Summary(d.createdCount, d.updatedCount, d.deletedCount, d.replacedCount),
      Section("add", d.createdAddresses) + Section("change", d.updatedAddresses)
        + Section("destroy", d.deletedAddresses) + Section("replace", d.replacedAddresses),
      blocks)
  }

  /** Render: unparseable input is an error; otherwise the classified plan is
      printed, or execution fails at the first entry whose diff fails. */
  function Render(lib: Lib, input: string): (r: Result<string>)
    ensures lib.parse(input).None? <==> r == Err(InvalidInput)
    ensures r.Err? && r != Err(InvalidInput) ==> r.error.TemplateFailed? && r.error.cause in {BeforeInvalid, AfterInvalid, DiffFailed}
    ensures lib.parse(input).Some? ==>
      (r.Ok? <==> forall i :: 0 <= i < |KeptChanges(lib.parse(input).value.resourceChanges)| ==>
        IndentedDiff(lib, KeptChanges(lib.parse(input).value.resourceChanges)[i].change).Ok?)
    ensures lib.parse(input).Some? && r.Err? ==> r.error.TemplateFailed? && exists i ::
      (0 <= i < |KeptChanges(lib.parse(input).value.resourceChanges)|
       && IndentedDiff(lib, KeptChanges(lib.parse(input).value.resourceChanges)[i].change) == Err(r.error.cause)
       && forall j :: 0 <= j < i ==> IndentedDiff(lib, KeptChanges(lib.parse(input).value.resourceChanges)[j].change).Ok?)
  {
    match lib.parse(input)
    case None => Err(InvalidInput)
    case Some(plan) =>
      var d := Classified(plan.resourceChanges);
      match Execute(d.resourceChanges, e => GetUnifiedDiffString(lib, e), EntryBlock)
      case Err(e) => Err(TemplateFailed(e))
      case Ok(blocks) => Ok(Markdown(d, blocks))
  }

  /** With no kept change the output is exactly the zero summary line and a newline. */
  lemma NoChanges(lib: Lib, input: string)
    requires lib.parse(input).Some? && KeptChanges(lib.parse(input).value.resourceChanges) == []
    ensures Render(lib, input) == Ok(EmptyReport)
  {
    var rcs := lib.parse(input).value.resourceChanges;
    NothingKept(rcs);
    var d := Classified(rcs);
    assert d.resourceChanges == [];
    assert Execute(d.resourceChanges, e => GetUnifiedDiffString(lib, e), EntryBlock) == Ok([]);
    assert d.createdCount == 0 && d.updatedCount == 0 && d.deletedCount == 0 && d.replacedCount == 0;
    assert Markdown(d, []) == EmptyReport;
  }

  /** The details section is printed exactly when some change is kept. */
  lemma DetailsIffKept(lib: Lib, input: string)
    requires Render(lib, input).Ok?
    ensures EndsWith(Render(lib, input).value, DetailsClose) <==> KeptChanges(lib.parse(input).value.resourceChanges) != []
  {
    var rcs := lib.parse(input).value.resourceChanges;
    if KeptChanges(rcs) == [] {
      NoChanges(lib, input);
      EmptyReportOpen();
    } else {
      var d := Classified(rcs);
      var blocks := Execute(d.resourceChanges, e => GetUnifiedDiffString(lib, e), EntryBlock).value;
      assert Render(lib, input).value == Markdown(d, blocks);
      assert blocks != [];
      DocumentShape(Summary(d.createdCount, d.updatedCount, d.deletedCount, d.replacedCount),
        Section("add", d.createdAddresses) + Section("change", d.updatedAddresses)
        + Section("destroy", d.deletedAddresses) + Section("replace", d.replacedAddresses), blocks);
    }
  }

  /** Each kept change becomes, in order, a three-backtick block tagged diff under
      "# <type>.<name> <suffix>" holding its diff. */
  lemma RenderBlocks(lib: Lib, input: string)
    requires Render(lib, input).Ok?
    ensures var d := Classified(lib.parse(input).value.resourceChanges);
      var es := d.resourceChanges;
      Render(lib, input).value == Markdown(d, seq(|es|, i requires 0 <= i < |es| =>
        Block("```", es[i].resourceChange.resourceType + "." + es[i].resourceChange.name + " " + es[i].headerSuffix,
              GetUnifiedDiffString(lib, es[i]).value)))
  {
    var d := Classified(lib.parse(input).value.resourceChanges);
    var es := d.resourceChanges;
    var blocks := Execute(es, e => GetUnifiedDiffString(lib, e), EntryBlock).value;
    assert Render(lib, input) == Ok(Markdown(d, blocks));
    BlocksOf(lib, es);
  }

  lemma BlocksOf(lib: Lib, es: seq<ResourceChangeData>)
    requires Execute(es, e => GetUnifiedDiffString(lib, e), EntryBlock).Ok?
    ensures Execute(es, e => GetUnifiedDiffString(lib, e), EntryBlock).value == seq(|es|, i requires 0 <= i < |es| =>
        Block("```", es[i].resourceChange.resourceType + "." + es[i].resourceChange.name + " " + es[i].headerSuffix,
              GetUnifiedDiffString(lib, es[i]).value))
  {
    var blocks := Execute(es, e => GetUnifiedDiffString(lib, e), EntryBlock).value;
    var expected := seq(|es|, i requires 0 <= i < |es| =>
        Block("```", es[i].resourceChange.resourceType + "." + es[i].resourceChange.name + " " + es[i].headerSuffix,
              GetUnifiedDiffString(lib, es[i]).value));
    forall i | 0 <= i < |es| ensures blocks[i] == expected[i] {
      assert blocks[i] == EntryBlock(es[i], GetUnifiedDiffString(lib, es[i]).value);
    }
    assert blocks == expected;
  }
}
