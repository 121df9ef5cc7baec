/** main.go: the first generation. Every kept change's diff is computed while
    the template data is built, so one failing diff aborts the whole run; the
    delete bucket is labelled "delete"; the closing details tag is printed even
    when there is nothing to show. Its template trims the newline after the add,
    change and delete lists, which glues the next label onto the last address:
    `MarkdownAsWritten` prints that text, `Markdown` the intended one. */
module J2md {
  import opened Wrappers
  import opened Tfjson
  import opened Foreign
  import opened Text
  import opened Classify
  import opened Report
  import opened Diffing

  datatype DiffTemplate = DiffTemplate(reportChanges: ResourceChange, message: string, diff: string, backquote: string)

  datatype PlanTemplate = PlanTemplate(
    createdCount: nat,
    updatedCount: nat,
    deletedCount: nat,
    replacedCount: nat,
    createdNames: seq<ResourceChange>,
    updatedNames: seq<ResourceChange>,
    deletedNames: seq<ResourceChange>,
    replacedNames: seq<ResourceChange>,
    changedResult: seq<DiffTemplate>)

  /** createResourceDiffString: the indented before and after, diffed with
      context 3; a failure of either serialisation or of the diff is an error. */
  function CreateResourceDiffString(lib: Lib, rc: ResourceChange): (r: Result<string>)
    ensures r == IndentedDiff(lib, rc.change)
    ensures r.Err? ==> r.error in {BeforeInvalid, AfterInvalid, DiffFailed}
  {
    IndentedDiff(lib, rc.change)
  }

  function DiffOf(lib: Lib): ResourceChange -> Result<string>
  {
    rc => CreateResourceDiffString(lib, rc)
  }

  /** The entry built for a kept change once its diff is known. */
  function Entry(rc: ResourceChange, diff: string): DiffTemplate
  {
    DiffTemplate(rc, Suffix(rc.change.actions), diff, "```")
  }

  /** The template data NewTemplateData returns, or the error of the first kept
      change whose diff fails. */
  function TemplateDataOf(lib: Lib, rcs: seq<ResourceChange>): Result<PlanTemplate>
  {
    var add, change := BucketChanges(rcs, Created), BucketChanges(rcs, Updated);
    var destroy, replace := BucketChanges(rcs, Deleted), BucketChanges(rcs, Replaced);
    match Execute(KeptChanges(rcs), DiffOf(lib), Entry)
    case Err(e) => Err(ChangesInvalid(e))
    case Ok(diffs) => Ok(PlanTemplate(|add|, |change|, |destroy|, |replace|, add, change, destroy, replace, diffs))
  }

  /** Diffs are computed eagerly: the data is built exactly when every kept change
      has a diff, each entry then holds its change, message, diff and a
      three-backtick fence, in input order; otherwise the error is the one of the
      first kept change whose diff fails. */
  lemma {:induction false} EagerDiffs(lib: Lib, rcs: seq<ResourceChange>)
    ensures TemplateDataOf(lib, rcs).Ok? <==>
      forall i :: 0 <= i < |KeptChanges(rcs)| ==> CreateResourceDiffString(lib, KeptChanges(rcs)[i]).Ok?
    ensures var kept := KeptChanges(rcs);
      TemplateDataOf(lib, rcs).Ok? ==>
        && |TemplateDataOf(lib, rcs).value.changedResult| == |kept|
        && (forall i :: 0 <= i < |kept| ==>
              TemplateDataOf(lib, rcs).value.changedResult[i] ==
              DiffTemplate(kept[i], Suffix(kept[i].change.actions), CreateResourceDiffString(lib, kept[i]).value, "```"))
    ensures TemplateDataOf(lib, rcs).Err? ==> exists i :: (0 <= i < |KeptChanges(rcs)|
      && CreateResourceDiffString(lib, KeptChanges(rcs)[i]).Err?
      && TemplateDataOf(lib, rcs) == Err(ChangesInvalid(CreateResourceDiffString(lib, KeptChanges(rcs)[i]).error))
      && forall j :: 0 <= j < i ==> CreateResourceDiffString(lib, KeptChanges(rcs)[j]).Ok?)
  {
    var kept := KeptChanges(rcs);
    var r := Execute(kept, DiffOf(lib), Entry);
    TemplateDataIs(lib, rcs);
    forall k | 0 <= k < |kept| ensures DiffOf(lib)(kept[k]) == CreateResourceDiffString(lib, kept[k]) {
    }
    if r.Err? {
      var first :| 0 <= first < |kept| && DiffOf(lib)(kept[first]) == Err(r.error)
        && forall j :: 0 <= j < first ==> DiffOf(lib)(kept[j]).Ok?;
      assert CreateResourceDiffString(lib, kept[first]) == Err(r.error);
    }
  }

  /** TemplateDataOf succeeds exactly when execution over the kept changes does. */
  lemma TemplateDataIs(lib: Lib, rcs: seq<ResourceChange>)
    ensures var r := Execute(KeptChanges(rcs), DiffOf(lib), Entry);
      && (TemplateDataOf(lib, rcs).Ok? <==> r.Ok?)
      && (r.Ok? ==> TemplateDataOf(lib, rcs).value.changedResult == r.value)
      && (r.Err? ==> TemplateDataOf(lib, rcs) == Err(ChangesInvalid(r.error)))
  {
  }

  /** The buckets hold exactly the kept records that match them first, and each
      count is its bucket's length. */
  lemma BucketsOf(lib: Lib, rcs: seq<ResourceChange>, rc: ResourceChange, b: Bucket)
    requires TemplateDataOf(lib, rcs).Ok?
    ensures var d := TemplateDataOf(lib, rcs).value;
      && d.createdCount == |d.createdNames| && d.updatedCount == |d.updatedNames|
      && d.deletedCount == |d.deletedNames| && d.replacedCount == |d.replacedNames|
    ensures var d := TemplateDataOf(lib, rcs).value;
      var names := match b
        case Created => d.createdNames case Updated => d.updatedNames
        case Deleted => d.deletedNames case Replaced => d.replacedNames;
      rc in names <==> rc in rcs && InBucket(rc, b)
  {
    BucketMembers(rcs, b, rc);
  }

  /** NewTemplateData: one pass over the changes that classifies each kept change
      and computes its diff at once, returning at the first diff that fails. */
  method NewTemplateData(lib: Lib, plan: Plan) returns (r: Result<PlanTemplate>)
    ensures r == TemplateDataOf(lib, plan.resourceChanges)
  {
    var rcs := plan.resourceChanges;
    var add, change, destroy, replace: seq<ResourceChange> := [], [], [], [];
    var diffs: seq<DiffTemplate> := [];
    var i := 0;
    while i < |rcs|
      invariant 0 <= i <= |rcs|
      invariant add == BucketChanges(rcs[..i], Created)
      invariant change == BucketChanges(rcs[..i], Updated)
      invariant destroy == BucketChanges(rcs[..i], Deleted)
      invariant replace == BucketChanges(rcs[..i], Replaced)
      invariant Execute(KeptChanges(rcs[..i]), DiffOf(lib), Entry) == Ok(diffs)
    {
      var c := rcs[i];
      ClassifyStep(rcs, i, Created);
      ClassifyStep(rcs, i, Updated);
      ClassifyStep(rcs, i, Deleted);
      ClassifyStep(rcs, i, Replaced);
      if IsNoOp(c.change.actions) || IsRead(c.change.actions) {
        assert KeptChanges(rcs[..i + 1]) == KeptChanges(rcs[..i]) + [];
        assert KeptChanges(rcs[..i]) + [] == KeptChanges(rcs[..i]);
        i := i + 1;
        continue;
      }
      var message := "";
      if IsCreate(c.change.actions) {
        add := add + [c];
        message := "will be created";
      } else if IsUpdate(c.change.actions) {
        change := change + [c];
        message := "will be updated in-place";
      } else if IsDelete(c.change.actions) {
        destroy := destroy + [c];
        message := "will be destroyed";
      } else if IsReplace(c.change.actions) {
        replace := replace + [c];
        message := "will be replaced";
      }
      assert message == Suffix(c.change.actions);
      var diff := CreateResourceDiffString(lib, c);
      assert KeptChanges(rcs[..i + 1]) == KeptChanges(rcs[..i]) + [c];
      ExecuteStep(lib, KeptChanges(rcs[..i]), diffs, c);
      if diff.Err? {
        FailsFrom(lib, rcs, i + 1, diff.error);
        return Err(ChangesInvalid(diff.error));
      }
      assert Entry(c, diff.value) == DiffTemplate(c, message, diff.value, "```");
      diffs := diffs + [DiffTemplate(c, message, diff.value, "```")];
      i := i + 1;
    }
    assert rcs[..i] == rcs;
    TemplateDataIs(lib, rcs);
    return Ok(PlanTemplate(|add|, |change|, |destroy|, |replace|, add, change, destroy, replace, diffs));
  }

  /** Once the kept changes before index `i` fail, the whole plan fails with that error. */
  lemma FailsFrom(lib: Lib, rcs: seq<ResourceChange>, i: nat, e: Error)
    requires i <= |rcs|
    requires Execute(KeptChanges(rcs[..i]), DiffOf(lib), Entry) == Err(e)
    ensures TemplateDataOf(lib, rcs) == Err(ChangesInvalid(e))
  {
    OrderPreserved(rcs[..i], rcs[i..], Created);
    assert rcs[..i] + rcs[i..] == rcs;
    ExecuteJoin(KeptChanges(rcs[..i]), KeptChanges(rcs[i..]), DiffOf(lib), Entry);
    TemplateDataIs(lib, rcs);
  }

  /** Executing over one more kept change: its diff's error, or one more entry. */
  lemma ExecuteStep(lib: Lib, kept: seq<ResourceChange>, diffs: seq<DiffTemplate>, c: ResourceChange)
    requires Execute(kept, DiffOf(lib), Entry) == Ok(diffs)
    ensures Execute(kept + [c], DiffOf(lib), Entry) ==
      match CreateResourceDiffString(lib, c)
      case Err(e) => Err(e)
      case Ok(t) => Ok(diffs + [Entry(c, t)])
  {
    ExecuteJoin(kept, [c], DiffOf(lib), Entry);
    assert [c][0] == c && [c][1..] == [];
    assert Execute([], DiffOf(lib), Entry) == Ok([]);
    assert DiffOf(lib)(c) == CreateResourceDiffString(lib, c);
    match CreateResourceDiffString(lib, c)
    case Err(e) =>
      assert Execute([c], DiffOf(lib), Entry) == Err(e);
    case Ok(t) =>
      assert Execute([c], DiffOf(lib), Entry) == Ok([Entry(c, t)] + []);
      assert [Entry(c, t)] + [] == [Entry(c, t)];
  }

  // ---------------------------------------------------------------------------
  // The report

  /** A bucket list as main.go's template prints it: "- <label>" and the item
      lines, with the newline after the last item trimmed away by `{{end -}}`. */
  function ListAsWritten(heading: string, names: seq<ResourceChange>): string
  {
    if names == [] then "" else "- " + heading + Items(Addresses(names))
  }

  /** The list as intended: the same lines, the last one ended by a newline. */
  function List(heading: string, names: seq<ResourceChange>): string
  {
    if names == [] then "" else "- " + heading + Items(Addresses(names)) + "\n"
  }

  /** One `{{ range .ChangedResult }}` iteration: the entry's own fence, the
      "# <type>.<name> <message>" line and the precomputed diff. */
  function EntryBlock(d: DiffTemplate): string
  {
    Block(d.backquote, d.reportChanges.resourceType + "." + d.reportChanges.name + " " + d.message, d.diff)
  }

  /** The details section, guarded by the entry list: the opening tag and the blocks, or nothing. */
  function Details(d: PlanTemplate): string
  {
    if d.changedResult == [] then ""
    else DetailsOpen + Concat(seq(|d.changedResult|, i requires 0 <= i < |d.changedResult| => EntryBlock(d.changedResult[i])))
  }

  /** The frame of planTemplateBody: the summary line, the lists, an empty line,
      the details and the closing tag, which sits outside the conditional. */
  function Page(summary: string, lists: string, details: string): string
  {
    summary + "\n" + lists + "\n" + details + DetailsClose
  }

  /** planTemplateBody exactly as written. */
  function MarkdownAsWritten(d: PlanTemplate): string
  {
    Page(Summary(d.createdCount, d.updatedCount, d.deletedCount, d.replacedCount),
      ListAsWritten("add", d.createdNames) + ListAsWritten("change", d.updatedNames)
        + ListAsWritten("delete", d.deletedNames) + ListAsWritten("replace", d.replacedNames),
      Details(d))
  }

  /** planTemplateBody with the add, change and delete lists ending their last line. */
  function Markdown(d: PlanTemplate): string
  {
    Page(Summary(d.createdCount, d.updatedCount, d.deletedCount, d.replacedCount),
      List("add", d.createdNames) + List("change", d.updatedNames)
        + List("delete", d.deletedNames) + ListAsWritten("replace", d.replacedNames),
      Details(d))
  }

  /** As written, whenever something is created and something updated, the last
      created address runs straight into the "- change" label on one line. */
  lemma GluedLabel(d: PlanTemplate)
    requires d.createdNames != [] && d.updatedNames != []
    ensures Contains(MarkdownAsWritten(d), "\n    - " + d.createdNames[|d.createdNames| - 1].address + "- change")
  {
    var created := d.createdNames;
    var last := "\n    - " + created[|created| - 1].address;
    var x := "- add" + Items(Addresses(created)[..|created| - 1]);
    var items := Items(Addresses(d.updatedNames));
    var a, c := ListAsWritten("add", created), ListAsWritten("change", d.updatedNames);
    var l, r := ListAsWritten("delete", d.deletedNames), ListAsWritten("replace", d.replacedNames);
    LastItem("add", created);
    assert c == "- change" + items;
    Glue(a, c, l, r, x, last, items);
    var summary := Summary(d.createdCount, d.updatedCount, d.deletedCount, d.replacedCount);
    var details := Details(d);
    assert MarkdownAsWritten(d) == Page(summary, a + c + l + r, details);
    PageSplit(summary, x, last + "- change", items + (l + r), details);
    ContainsMiddle(summary + "\n" + x, last + "- change", items + (l + r) + "\n" + details + DetailsClose);
  }

  /** The add list's last item followed by the change list's label. */
  lemma Glue(a: string, c: string, l: string, r: string, x: string, last: string, items: string)
    requires a == x + last && c == "- change" + items
    ensures a + c + l + r == x + (last + "- change") + (items + (l + r))
  {
  }

  /** A non-empty list as written: its label and all items but the last, then the last item. */
  lemma LastItem(heading: string, names: seq<ResourceChange>)
    requires names != []
    ensures ListAsWritten(heading, names) ==
      ("- " + heading + Items(Addresses(names)[..|names| - 1])) + ("\n    - " + names[|names| - 1].address)
  {
    var add := Addresses(names);
    var init, last := Items(add[..|add| - 1]), add[|add| - 1];
    assert Items(add) == init + "\n    - " + last;
    assert last == names[|names| - 1].address;
    Regroup3("- " + heading, init, "\n    - ", last);
  }

  lemma Regroup3(h: string, x: string, y: string, z: string)
    ensures h + (x + y + z) == (h + x) + (y + z)
  {
  }

  /** Placing a piece of the lists inside the page. */
  lemma PageSplit(summary: string, x: string, t: string, y: string, details: string)
    ensures Page(summary, x + t + y, details) == (summary + "\n" + x) + t + (y + "\n" + details + DetailsClose)
  {
  }

  /** A concrete plan: a created resource "a" and an updated resource "b" print
      the line "    - a- change". */
  lemma GluedExample(a: ResourceChange, b: ResourceChange)
    requires a.address == "a" && b.address == "b"
    ensures Contains(MarkdownAsWritten(PlanTemplate(1, 1, 0, 0, [a], [b], [], [], [])), "\n    - a- change")
  {
    GluedLabel(PlanTemplate(1, 1, 0, 0, [a], [b], [], [], []));
    assert "\n    - " + a.address + "- change" == "\n    - a- change";
  }

  /** In the intended report every non-empty list starts on a line of its own:
      its label follows a newline. */
  lemma LabelsStartLines(d: PlanTemplate)
    ensures d.createdNames != [] ==> Contains(Markdown(d), "\n- add")
    ensures d.updatedNames != [] ==> Contains(Markdown(d), "\n- change")
    ensures d.deletedNames != [] ==> Contains(Markdown(d), "\n- delete")
    ensures d.replacedNames != [] ==> Contains(Markdown(d), "\n- replace")
  {
    var summary := Summary(d.createdCount, d.updatedCount, d.deletedCount, d.replacedCount);
    assert Markdown(d) == Page(summary, List("add", d.createdNames) + List("change", d.updatedNames)
      + List("delete", d.deletedNames) + ListAsWritten("replace", d.replacedNames), Details(d));
    OwnLines(summary, d.createdNames, d.updatedNames, d.deletedNames, d.replacedNames, Details(d));
  }

  lemma OwnLines(summary: string, created: seq<ResourceChange>, updated: seq<ResourceChange>,
                 deleted: seq<ResourceChange>, replaced: seq<ResourceChange>, details: string)
    ensures var page := Page(summary, List("add", created) + List("change", updated)
      + List("delete", deleted) + ListAsWritten("replace", replaced), details);
      && (created != [] ==> Contains(page, "\n- add"))
      && (updated != [] ==> Contains(page, "\n- change"))
      && (deleted != [] ==> Contains(page, "\n- delete"))
      && (replaced != [] ==> Contains(page, "\n- replace"))
  {
    var r := ListAsWritten("replace", replaced);
    if created != [] { AddLine(summary, created, List("change", updated), List("delete", deleted), r, details); }
    if updated != [] { ChangeLine(summary, created, updated, List("delete", deleted), r, details); }
    if deleted != [] { DeleteLine(summary, created, updated, deleted, r, details); }
    if replaced != [] { ReplaceLine(summary, created, updated, deleted, replaced, details); }
  }

  lemma AddLine(summary: string, created: seq<ResourceChange>, c: string, l: string, r: string, details: string)
    requires created != []
    ensures Contains(Page(summary, List("add", created) + c + l + r, details), "\n- add")
  {
    var p0 := summary + "\n";
    PageParts(summary, List("add", created), c, l, r, details);
    assert p0[|p0| - 1] == '\n';
    assert "\n- " + "add" == "\n- add";
    ListAfterNewline(p0, "add", created, c + l + r + ("\n" + details + DetailsClose));
  }

  lemma ChangeLine(summary: string, created: seq<ResourceChange>, updated: seq<ResourceChange>,
                   l: string, r: string, details: string)
    requires updated != []
    ensures Contains(Page(summary, List("add", created) + List("change", updated) + l + r, details), "\n- change")
  {
    var p0 := summary + "\n";
    var a := List("add", created);
    PageParts(summary, a, List("change", updated), l, r, details);
    assert p0[|p0| - 1] == '\n';
    ListEndsLine(p0, "add", created);
    assert "\n- " + "change" == "\n- change";
    ListAfterNewline(p0 + a, "change", updated, l + r + ("\n" + details + DetailsClose));
  }

  lemma DeleteLine(summary: string, created: seq<ResourceChange>, updated: seq<ResourceChange>,
                   deleted: seq<ResourceChange>, r: string, details: string)
    requires deleted != []
    ensures Contains(Page(summary, List("add", created) + List("change", updated) + List("delete", deleted) + r,
      details), "\n- delete")
  {
    var p1 := summary + "\n" + List("add", created);
    var c := List("change", updated);
    PageParts(summary, List("add", created), c, List("delete", deleted), r, details);
    EndsLineAfterLists(summary, created, updated, []);
    assert "\n- " + "delete" == "\n- delete";
    ListAfterNewline(p1 + c, "delete", deleted, r + ("\n" + details + DetailsClose));
  }

  lemma ReplaceLine(summary: string, created: seq<ResourceChange>, updated: seq<ResourceChange>,
                    deleted: seq<ResourceChange>, replaced: seq<ResourceChange>, details: string)
    requires replaced != []
    ensures Contains(Page(summary, List("add", created) + List("change", updated) + List("delete", deleted)
      + ListAsWritten("replace", replaced), details), "\n- replace")
  {
    var before := summary + "\n" + List("add", created) + List("change", updated) + List("delete", deleted);
    var r := ListAsWritten("replace", replaced);
    var tail := "\n" + details + DetailsClose;
    PageParts(summary, List("add", created), List("change", updated), List("delete", deleted), r, details);
    EndsLineAfterLists(summary, created, updated, deleted);
    var items := Items(Addresses(replaced));
    assert r + tail == "- " + "replace" + (items + tail);
    assert before + r + tail == before + ("- " + "replace" + (items + tail));
    assert "\n- " + "replace" == "\n- replace";
    LabelAfterNewline(before, "replace", items + tail);
  }

  /** The summary and the add, change and delete lists end a line. */
  lemma EndsLineAfterLists(summary: string, created: seq<ResourceChange>, updated: seq<ResourceChange>,
                           deleted: seq<ResourceChange>)
    ensures var b := summary + "\n" + List("add", created) + List("change", updated) + List("delete", deleted);
      |b| > 0 && b[|b| - 1] == '\n'
    ensures var b := summary + "\n" + List("add", created) + List("change", updated);
      |b| > 0 && b[|b| - 1] == '\n'
  {
    var p0 := summary + "\n";
    assert p0[|p0| - 1] == '\n';
    ListEndsLine(p0, "add", created);
    ListEndsLine(p0 + List("add", created), "change", updated);
    ListEndsLine(p0 + List("add", created) + List("change", updated), "delete", deleted);
  }

  /** The page cut around each of its four lists. */
  lemma PageParts(summary: string, a: string, c: string, l: string, r: string, details: string)
    ensures var tail := "\n" + details + DetailsClose; var p0 := summary + "\n";
      && Page(summary, a + c + l + r, details) == p0 + a + (c + l + r + tail)
      && Page(summary, a + c + l + r, details) == (p0 + a) + c + (l + r + tail)
      && Page(summary, a + c + l + r, details) == (p0 + a + c) + l + (r + tail)
      && Page(summary, a + c + l + r, details) == (p0 + a + c + l) + r + tail
  {
  }

  /** After text that ends a line, a list leaves the text still ending a line. */
  lemma ListEndsLine(before: string, heading: string, names: seq<ResourceChange>)
    requires |before| > 0 && before[|before| - 1] == '\n'
    ensures var b := before + List(heading, names); |b| > 0 && b[|b| - 1] == '\n'
  {
    if names != [] {
      assert before + List(heading, names) == (before + "- " + heading + Items(Addresses(names))) + "\n";
    } else {
      assert before + List(heading, names) == before;
    }
  }

  /** After text that ends a line, a non-empty list begins with its label on a
      new line. */
  lemma ListAfterNewline(before: string, heading: string, names: seq<ResourceChange>, after: string)
    requires |before| > 0 && before[|before| - 1] == '\n'
    requires names != []
    ensures Contains(before + List(heading, names) + after, "\n- " + heading)
  {
    var rest := Items(Addresses(names)) + "\n" + after;
    assert before + List(heading, names) + after == before + ("- " + heading + rest);
    LabelAfterNewline(before, heading, rest);
  }

  lemma LabelAfterNewline(before: string, heading: string, rest: string)
    requires |before| > 0 && before[|before| - 1] == '\n'
    ensures Contains(before + ("- " + heading + rest), "\n- " + heading)
  {
    var p := before[..|before| - 1];
    assert before == p + "\n";
    assert before + ("- " + heading + rest) == p + ("\n- " + heading) + rest;
    ContainsMiddle(p, "\n- " + heading, rest);
  }

  /** The fix touches nothing else: with no add, change or delete list the two
      reports are the same. */
  lemma FixIsLocal(d: PlanTemplate)
    requires d.createdNames == [] && d.updatedNames == [] && d.deletedNames == []
    ensures Markdown(d) == MarkdownAsWritten(d)
  {
  }

  /** The closing details tag sits outside the conditional: every report ends
      with it, whether or not there is any change to show. */
  lemma DetailsAlwaysClosed(d: PlanTemplate)
    ensures EndsWith(Markdown(d), DetailsClose) && EndsWith(MarkdownAsWritten(d), DetailsClose)
    ensures d.changedResult == [] ==> Details(d) == ""
  {
  }

  /** render: unparseable input is an error, a failing diff is an error of the
      template data, and otherwise the report is printed with the template as written. */
  function Render(lib: Lib, input: string): (r: Result<string>)
    ensures lib.parse(input).None? <==> r == Err(InvalidInput)
    ensures lib.parse(input).Some? ==>
      (r.Err? <==> TemplateDataOf(lib, lib.parse(input).value.resourceChanges).Err?)
    ensures r.Err? && r != Err(InvalidInput) ==> r.error.PlanDataFailed? && r.error.cause.ChangesInvalid?
    ensures lib.parse(input).Some? && TemplateDataOf(lib, lib.parse(input).value.resourceChanges).Ok? ==>
      r == Ok(MarkdownAsWritten(TemplateDataOf(lib, lib.parse(input).value.resourceChanges).value))
  {
    match lib.parse(input)
    case None => Err(InvalidInput)
    case Some(plan) =>
      match TemplateDataOf(lib, plan.resourceChanges)
      case Err(e) => Err(PlanDataFailed(e))
      case Ok(d) => Ok(MarkdownAsWritten(d))
  }

  /** The printed report shows the glued label: whenever the plan creates and
      updates something, the last created address runs into "- change". */
  lemma RenderGlues(lib: Lib, input: string)
    requires lib.parse(input).Some? && TemplateDataOf(lib, lib.parse(input).value.resourceChanges).Ok?
    requires BucketChanges(lib.parse(input).value.resourceChanges, Created) != []
    requires BucketChanges(lib.parse(input).value.resourceChanges, Updated) != []
    ensures var created := BucketChanges(lib.parse(input).value.resourceChanges, Created);
      Contains(Render(lib, input).value, "\n    - " + created[|created| - 1].address + "- change")
  {
    var rcs := lib.parse(input).value.resourceChanges;
    var d := TemplateDataOf(lib, rcs).value;
    TemplateDataIs(lib, rcs);
    GluedLabel(d);
  }

  /** render with the corrected template: the same errors, and the report of
      `Markdown`, where every label starts a line of its own. */
  function RenderCorrected(lib: Lib, input: string): (r: Result<string>)
    ensures r.Ok? <==> Render(lib, input).Ok?
    ensures r.Err? ==> r == Render(lib, input)
    ensures lib.parse(input).Some? && TemplateDataOf(lib, lib.parse(input).value.resourceChanges).Ok? ==>
      r == Ok(Markdown(TemplateDataOf(lib, lib.parse(input).value.resourceChanges).value))
  {
    match lib.parse(input)
    case None => Err(InvalidInput)
    case Some(plan) =>
      match TemplateDataOf(lib, plan.resourceChanges)
      case Err(e) => Err(PlanDataFailed(e))
      case Ok(d) => Ok(Markdown(d))
  }

  /** With no kept change the report is the zero summary line, two newlines and the
      closing details tag. */
  lemma NoChanges(lib: Lib, input: string)
    requires lib.parse(input).Some? && KeptChanges(lib.parse(input).value.resourceChanges) == []
    ensures Render(lib, input) == Ok(Summary(0, 0, 0, 0) + "\n" + "\n" + DetailsClose)
  {
    var rcs := lib.parse(input).value.resourceChanges;
    NothingKept(rcs);
    assert Execute(KeptChanges(rcs), DiffOf(lib), Entry) == Ok([]);
    TemplateDataIs(lib, rcs);
    var d := TemplateDataOf(lib, rcs).value;
    assert d.changedResult == [] && d.createdNames == [] && d.updatedNames == [];
    assert d.deletedNames == [] && d.replacedNames == [];
    assert Details(d) == "";
    assert Render(lib, input) == Ok(MarkdownAsWritten(d));
    assert d.createdCount == 0 && d.updatedCount == 0 && d.deletedCount == 0 && d.replacedCount == 0;
    assert ListAsWritten("add", d.createdNames) + ListAsWritten("change", d.updatedNames)
      + ListAsWritten("delete", d.deletedNames) + ListAsWritten("replace", d.replacedNames) == "";
    assert MarkdownAsWritten(d) == Page(Summary(0, 0, 0, 0), "", "");
    assert Page(Summary(0, 0, 0, 0), "", "") == Summary(0, 0, 0, 0) + "\n" + "\n" + DetailsClose;
  }
}
