/** internal/template: the generation between main.go and internal/converter.
    The buckets hold the change records themselves (the template prints their
    addresses), each entry carries its message, and the diff is computed by the
    template while it prints the block. */
module Template {
  import opened Wrappers
  import opened Tfjson
  import opened Foreign
  import opened Text
  import opened Classify
  import opened Report
  import opened Diffing

  datatype DiffTemplate = DiffTemplate(reportChanges: ResourceChange, message: string)

  datatype PlanTemplate = PlanTemplate(
    createdCount: nat,
    updatedCount: nat,
    deletedCount: nat,
    replacedCount: nat,
    createdNames: seq<ResourceChange>,
    updatedNames: seq<ResourceChange>,
    deletedNames: seq<ResourceChange>,
    replacedNames: seq<ResourceChange>,
    changedResult: seq<DiffTemplate>)

  /** Backquote: three backticks. */
  function Backquote(d: DiffTemplate): (s: string)
    ensures |s| == 3 && forall i :: 0 <= i < |s| ==> s[i] == '`'
  {
    "```"
  }

  /** Diff: the indented before and after, diffed with context 3; a failure of
      either serialisation or of the diff is returned as an error. */
  function Diff(lib: Lib, d: DiffTemplate): (r: Result<string>)
    ensures r == IndentedDiff(lib, d.reportChanges.change)
    ensures r.Err? ==> r.error in {BeforeInvalid, AfterInvalid, DiffFailed}
  {
    IndentedDiff(lib, d.reportChanges.change)
  }

  function Entries(rcs: seq<ResourceChange>): (es: seq<DiffTemplate>)
    ensures |es| == |rcs|
    ensures forall i :: 0 <= i < |rcs| ==> es[i] == DiffTemplate(rcs[i], Suffix(rcs[i].change.actions))
  {
    seq(|rcs|, i requires 0 <= i < |rcs| => DiffTemplate(rcs[i], Suffix(rcs[i].change.actions)))
  }

  lemma EntriesAppend(rcs: seq<ResourceChange>, rc: ResourceChange)
    ensures Entries(rcs + [rc]) == Entries(rcs) + [DiffTemplate(rc, Suffix(rc.change.actions))]
  {
  }

  /** The template data NewTemplateData builds. */
  function Classified(rcs: seq<ResourceChange>): PlanTemplate
  {
    var add, change := BucketChanges(rcs, Created), BucketChanges(rcs, Updated);
    var destroy, replace := BucketChanges(rcs, Deleted), BucketChanges(rcs, Replaced);
    PlanTemplate(|add|, |change|, |destroy|, |replace|, add, change, destroy, replace, Entries(KeptChanges(rcs)))
  }

  /** Each bucket holds exactly the records that are kept and match it first, each
      count is its bucket's length, and the entries are the kept changes with the
      message of their bucket. */
  lemma ClassifiedShape(rcs: seq<ResourceChange>, rc: ResourceChange, message: string)
    ensures var d := Classified(rcs);
      && d.createdCount == |d.createdNames| && d.updatedCount == |d.updatedNames|
      && d.deletedCount == |d.deletedNames| && d.replacedCount == |d.replacedNames|
    ensures rc in Classified(rcs).createdNames <==> rc in rcs && InBucket(rc, Created)
    ensures rc in Classified(rcs).updatedNames <==> rc in rcs && InBucket(rc, Updated)
    ensures rc in Classified(rcs).deletedNames <==> rc in rcs && InBucket(rc, Deleted)
    ensures rc in Classified(rcs).replacedNames <==> rc in rcs && InBucket(rc, Replaced)
    ensures DiffTemplate(rc, message) in Classified(rcs).changedResult <==>
      rc in rcs && Kept(rc) && message == Suffix(rc.change.actions)
  {
    BucketMembers(rcs, Created, rc);
    BucketMembers(rcs, Updated, rc);
    BucketMembers(rcs, Deleted, rc);
    BucketMembers(rcs, Replaced, rc);
    KeptMembers(rcs, rc);
    var kept := KeptChanges(rcs);
    if DiffTemplate(rc, message) in Entries(kept) {
      var i :| 0 <= i < |kept| && Entries(kept)[i] == DiffTemplate(rc, message);
      assert kept[i] == rc;
    }
    if rc in kept && message == Suffix(rc.change.actions) {
      var i :| 0 <= i < |kept| && kept[i] == rc;
      assert Entries(kept)[i] == DiffTemplate(rc, message);
    }
  }

  /** NewTemplateData: one pass over the changes; it never fails. */
  method NewTemplateData(plan: Plan) returns (r: Result<PlanTemplate>)
    ensures r.Ok?
    ensures r == Ok(Classified(plan.resourceChanges))
  {
    var rcs := plan.resourceChanges;
    var add, change, destroy, replace: seq<ResourceChange> := [], [], [], [];
    var diffs: seq<DiffTemplate> := [];
    var i := 0;
    while i < |rcs|
      invariant 0 <= i <= |rcs|
      invariant add == BucketChanges(rcs[..i], Created)
      invariant change == BucketChanges(rcs[..i], Updated)
      invariant destroy == BucketChanges(rcs[..i], Deleted)
      invariant replace == BucketChanges(rcs[..i], Replaced)
      invariant diffs == Entries(KeptChanges(rcs[..i]))
    {
      var c := rcs[i];
      ClassifyStep(rcs, i, Created);
      ClassifyStep(rcs, i, Updated);
      ClassifyStep(rcs, i, Deleted);
      ClassifyStep(rcs, i, Replaced);
      if IsNoOp(c.change.actions) || IsRead(c.change.actions) {
        i := i + 1;
        continue;
      }
      var message := "";
      if IsCreate(c.change.actions) {
        add := add + [c];
        message := "will be created";
      } else if IsUpdate(c.change.actions) {
        change := change + [c];
        message := "will be updated in-place";
      } else if IsDelete(c.change.actions) {
        destroy := destroy + [c];
        message := "will be destroyed";
      } else if IsReplace(c.change.actions) {
        replace := replace + [c];
        message := "will be replaced";
      }
      EntriesAppend(KeptChanges(rcs[..i]), c);
      diffs := diffs + [DiffTemplate(c, message)];
      i := i + 1;
    }
    assert rcs[..i] == rcs;
    return Ok(PlanTemplate(|add|, |change|, |destroy|, |replace|, add, change, destroy, replace, diffs));
  }

  /** One pass of the `range` over ChangedResult:
      "# <type>.<name> <message>" inside a three-backtick block tagged diff. */
  function EntryBlock(d: DiffTemplate, diff: string): string
  {
    Block(Backquote(d), d.reportChanges.resourceType + "." + d.reportChanges.name + " " + d.message, diff)
  }

  /** planTemplateBody: the stored counts, each bucket's addresses under its
      label, then the details section over the given blocks. */
  function Markdown(d: PlanTemplate, blocks: seq<string>): string
  {
    Document(
      Summary(d.createdCount, d.updatedCount, d.deletedCount, d.replacedCount),
      Section("add", Addresses(d.createdNames)) + Section("change", Addresses(d.updatedNames))
        + Section("destroy", Addresses(d.deletedNames)) + Section("replace", Addresses(d.replacedNames)),
      blocks)
  }

  /** Render: unparseable input is an error; otherwise the classified plan is
      printed, or execution fails at the first entry whose diff fails. */
  function Render(lib: Lib, input: string): (r: Result<string>)
    ensures lib.parse(input).None? <==> r == Err(InvalidInput)
    ensures r.Err? && r != Err(InvalidInput) ==> r.error.TemplateFailed? && r.error.cause in {BeforeInvalid, AfterInvalid, DiffFailed}
    ensures lib.parse(input).Some? ==>
      (r.Ok? <==> forall i :: 0 <= i < |KeptChanges(lib.parse(input).value.resourceChanges)| ==>
        IndentedDiff(lib, KeptChanges(lib.parse(input).value.resourceChanges)[i].change).Ok?)
    ensures lib.parse(input).Some? && r.Err? ==> r.error.TemplateFailed? && exists i ::
      (0 <= i < |KeptChanges(lib.parse(input).value.resourceChanges)|
       && IndentedDiff(lib, KeptChanges(lib.parse(input).value.resourceChanges)[i].change) == Err(r.error.cause)
       && forall j :: 0 <= j < i ==> IndentedDiff(lib, KeptChanges(lib.parse(input).value.resourceChanges)[j].change).Ok?)
  {
    match lib.parse(input)
    case None => Err(InvalidInput)
    case Some(plan) =>
      var d := Classified(plan.resourceChanges);
      match Execute(d.changedResult, e => Diff(lib, e), EntryBlock)
      case Err(e) => Err(TemplateFailed(e))
      case Ok(blocks) => Ok(Markdown(d, blocks))
  }

  /** With no kept change the output is exactly the zero summary line and a newline. */
  lemma NoChanges(lib: Lib, input: string)
    requires lib.parse(input).Some? && KeptChanges(lib.parse(input).value.resourceChanges) == []
    ensures Render(lib, input) == Ok(EmptyReport)
  {
    var rcs := lib.parse(input).value.resourceChanges;
    NothingKept(rcs);
    var d := Classified(rcs);
    assert d.changedResult == [];
    assert Execute(d.changedResult, e => Diff(lib, e), EntryBlock) == Ok([]);
    assert Render(lib, input) == Ok(Markdown(d, []));
    assert d.createdNames == [] && d.updatedNames == [] && d.deletedNames == [] && d.replacedNames == [];
    assert Section("add", Addresses(d.createdNames)) == "" && Section("change", Addresses(d.updatedNames)) == "";
    assert Section("destroy", Addresses(d.deletedNames)) == "" && Section("replace", Addresses(d.replacedNames)) == "";
    assert Markdown(d, []) == EmptyReport;
  }

  /** The details section is printed exactly when some change is kept. */
  lemma DetailsIffKept(lib: Lib, input: string)
    requires Render(lib, input).Ok?
    ensures EndsWith(Render(lib, input).value, DetailsClose) <==> KeptChanges(lib.parse(input).value.resourceChanges) != []
  {
    var rcs := lib.parse(input).value.resourceChanges;
    if KeptChanges(rcs) == [] {
      NoChanges(lib, input);
      EmptyReportOpen();
    } else {
      var d := Classified(rcs);
      var blocks := Execute(d.changedResult, e => Diff(lib, e), EntryBlock).value;
      assert Render(lib, input).value == Markdown(d, blocks);
      assert blocks != [];
      DocumentShape(Summary(d.createdCount, d.updatedCount, d.deletedCount, d.replacedCount),
        Section("add", Addresses(d.createdNames)) + Section("change", Addresses(d.updatedNames))
        + Section("destroy", Addresses(d.deletedNames)) + Section("replace", Addresses(d.replacedNames)), blocks);
    }
  }

  /** Each kept change becomes, in order, a three-backtick block tagged diff under
      "# <type>.<name> <message>" holding its diff. */
  lemma RenderBlocks(lib: Lib, input: string)
    requires Render(lib, input).Ok?
    ensures var d := Classified(lib.parse(input).value.resourceChanges);
      var es := d.changedResult;
      Render(lib, input).value == Markdown(d, seq(|es|, i requires 0 <= i < |es| =>
        Block("```", es[i].reportChanges.resourceType + "." + es[i].reportChanges.name + " " + es[i].message,
              Diff(lib, es[i]).value)))
  {
    var d := Classified(lib.parse(input).value.resourceChanges);
    var es := d.changedResult;
    var blocks := Execute(es, e => Diff(lib, e), EntryBlock).value;
    assert Render(lib, input) == Ok(Markdown(d, blocks));
    BlocksOf(lib, es);
  }

  lemma BlocksOf(lib: Lib, es: seq<DiffTemplate>)
    requires Execute(es, e => Diff(lib, e), EntryBlock).Ok?
    ensures Execute(es, e => Diff(lib, e), EntryBlock).value == seq(|es|, i requires 0 <= i < |es| =>
        Block("```", es[i].reportChanges.resourceType + "." + es[i].reportChanges.name + " " + es[i].message,
              Diff(lib, es[i]).value))
  {
    var blocks := Execute(es, e => Diff(lib, e), EntryBlock).value;
    var expected := seq(|es|, i requires 0 <= i < |es| =>
        Block("```", es[i].reportChanges.resourceType + "." + es[i].reportChanges.name + " " + es[i].message,
              Diff(lib, es[i]).value));
    forall i | 0 <= i < |es| ensures blocks[i] == expected[i] {
      assert blocks[i] == EntryBlock(es[i], Diff(lib, es[i]).value);
    }
    assert blocks == expected;
  }
}
