/** internal/terraform/plan.go: the latest generation. The plan is parsed,
    sanitised and formatted, then classified; each entry's diff is taken over
    the encoder's output after the escape rewrite, and the report uses an
    eight-backtick fence and module-qualified headers. The package-level
    `config` is the explicit `escapeHTML` parameter. */
module TerraformPlan {
  import opened Wrappers
  import opened Tfjson
  import opened Foreign
  import opened Text
  import opened Classify
  import opened Report
  import opened Diffing
  import Format

  datatype ResourceChangeData = ResourceChangeData(resourceChange: ResourceChange)

  datatype PlanData = PlanData(
    createdAddresses: seq<string>,
    updatedAddresses: seq<string>,
    deletedAddresses: seq<string>,
    replacedAddresses: seq<string>,
    resourceChanges: seq<ResourceChangeData>)

  /** The `codeFence` template function. */
  const CodeFence: string := "````````"

  // ---------------------------------------------------------------------------
  // The escape rewrite applied to both encoded texts before they are diffed

  /** One left-to-right pass without overlap: a backslash followed by `n` becomes a
      newline and two spaces, a backslash followed by a quote becomes the quote,
      and any other character is copied. */
  function Unescape(s: string): string
  {
    if |s| >= 2 && s[0] == '\\' && s[1] == 'n' then "\n  " + Unescape(s[2..])
    else if |s| >= 2 && s[0] == '\\' && s[1] == '"' then "\"" + Unescape(s[2..])
    else if s == [] then ""
    else [s[0]] + Unescape(s[1..])
  }

  /** Text without a backslash is copied unchanged. */
  lemma {:induction false} UnescapePlain(s: string)
    requires forall i :: 0 <= i < |s| ==> s[i] != '\\'
    ensures Unescape(s) == s
  {
    if s != [] {
      UnescapePlain(s[1..]);
    }
  }

  /** The rewrite works piece by piece: a text may be cut anywhere except right
      after a backslash, since no match spans the cut. */
  lemma {:induction false} UnescapeJoin(a: string, b: string)
    requires a == [] || a[|a| - 1] != '\\'
    ensures Unescape(a + b) == Unescape(a) + Unescape(b)
  {
    if a == [] {
      assert a + b == b;
    } else {
      var n := StepLength(a);
      var head, rest := Unescape(a[..n]), a[n..];
      StepJoin(a, b);
      assert (a + b)[n..] == rest + b;
      assert rest == [] || rest[|rest| - 1] == a[|a| - 1];
      UnescapeJoin(rest, b);
      Regroup(head, Unescape(rest), Unescape(b));
    }
  }

  lemma Regroup(x: string, y: string, z: string)
    ensures x + (y + z) == (x + y) + z
  {
  }

  /** How many characters of a non-empty text the pass consumes next. */
  function StepLength(s: string): (n: nat)
    requires s != []
    ensures 1 <= n <= |s|
  {
    if |s| >= 2 && s[0] == '\\' && (s[1] == 'n' || s[1] == '"') then 2 else 1
  }

  /** A text that does not end in a backslash takes its next step in the same
      way whatever follows it. */
  lemma StepJoin(a: string, b: string)
    requires a != [] && a[|a| - 1] != '\\'
    ensures StepLength(a + b) == StepLength(a)
    ensures Unescape(a + b) == Unescape(a[..StepLength(a)]) + Unescape((a + b)[StepLength(a)..])
    ensures Unescape(a) == Unescape(a[..StepLength(a)]) + Unescape(a[StepLength(a)..])
  {
    var ab := a + b;
    assert ab[0] == a[0];
    assert |a| >= 2 ==> ab[1] == a[1];
    var p := a[..StepLength(a)];
    if StepLength(a) == 2 {
      assert p[2..] == [];
    } else {
      assert p[1..] == [];
    }
  }

  /** No overlap: in an escaped backslash followed by `n` (JSON for a backslash and
      the letter n) the second backslash starts the match, so the text becomes a
      backslash, a newline and two spaces. */
  lemma UnescapeEscapedBackslash()
    ensures Unescape("\\\\n") == "\\\n  "
  {
    assert "\\\\n"[1..] == "\\n";
    assert "\\n"[2..] == "";
  }

  function Unescaped(t: Option<string>): (r: Option<string>)
    ensures r.Some? <==> t.Some?
  {
    match t
    case None => None
    case Some(s) => Some(Unescape(s))
  }

  // ---------------------------------------------------------------------------
  // Entries

  /** Header: "<type>.<name> <suffix>", prefixed with "<module address>." when the
      resource lives in a module. */
  function Header(d: ResourceChangeData): string
  {
    var rc := d.resourceChange;
    var header := rc.resourceType + "." + rc.name + " " + Suffix(rc.change.actions);
    if rc.moduleAddress == "" then header else rc.moduleAddress + "." + header
  }

  /** The header ends with the suffix and starts with the module address and a dot
      exactly when that address is non-empty; its length accounts for nothing else. */
  lemma HeaderShape(d: ResourceChangeData)
    ensures var rc := d.resourceChange;
      && EndsWith(Header(d), " " + Suffix(rc.change.actions))
      && (rc.moduleAddress != "" ==> StartsWith(Header(d), rc.moduleAddress + "."))
      && |Header(d)| == (if rc.moduleAddress == "" then 0 else |rc.moduleAddress| + 1)
                        + |rc.resourceType| + 1 + |rc.name| + 1 + |Suffix(rc.change.actions)|
  {
    var rc := d.resourceChange;
    var tail := " " + Suffix(rc.change.actions);
    var h := Header(d);
    if rc.moduleAddress == "" {
      assert h == (rc.resourceType + "." + rc.name) + tail;
    } else {
      assert h == (rc.moduleAddress + "." + rc.resourceType + "." + rc.name) + tail;
    }
  }

  /** GetUnifiedDiffString: both sides through the encoder with the given escaping
      flag, both texts through the same rewrite, then the diff with context 3. */
  function GetUnifiedDiffString(lib: Lib, d: ResourceChangeData, escapeHTML: bool): (r: Result<string>)
    ensures var c := d.resourceChange.change;
      r == DiffTexts(lib, Unescaped(Encode(lib, c.before, escapeHTML)), Unescaped(Encode(lib, c.after, escapeHTML)))
    ensures var c := d.resourceChange.change;
      r.Ok? ==> Some(r.value) == lib.unifiedDiff(Unescape(lib.marshal(c.before, escapeHTML).value + "\n"),
                                                 Unescape(lib.marshal(c.after, escapeHTML).value + "\n"), 3)
  {
    var c := d.resourceChange.change;
    DiffTexts(lib, Unescaped(Encode(lib, c.before, escapeHTML)), Unescaped(Encode(lib, c.after, escapeHTML)))
  }

  // ---------------------------------------------------------------------------
  // Classification

  function Entries(rcs: seq<ResourceChange>): (es: seq<ResourceChangeData>)
    ensures |es| == |rcs| && forall i :: 0 <= i < |rcs| ==> es[i] == ResourceChangeData(rcs[i])
  {
    seq(|rcs|, i requires 0 <= i < |rcs| => ResourceChangeData(rcs[i]))
  }

  /** The plan data the classification loop builds from the formatted changes. */
  function Classified(rcs: seq<ResourceChange>): PlanData
  {
    PlanData(
      Addresses(BucketChanges(rcs, Created)),
      Addresses(BucketChanges(rcs, Updated)),
      Addresses(BucketChanges(rcs, Deleted)),
      Addresses(BucketChanges(rcs, Replaced)),
      Entries(KeptChanges(rcs)))
  }

  /** The entries are exactly the kept changes, so a dropped no-op or read change
      has none; every entry is counted in one address list or matched no bucket. */
  lemma ClassifiedEntries(rcs: seq<ResourceChange>, rc: ResourceChange)
    ensures ResourceChangeData(rc) in Classified(rcs).resourceChanges <==> rc in rcs && Kept(rc)
    ensures var d := Classified(rcs);
      |d.createdAddresses| + |d.updatedAddresses| + |d.deletedAddresses| + |d.replacedAddresses|
        + |UnmatchedChanges(rcs)| == |d.resourceChanges|
  {
    KeptMembers(rcs, rc);
    Partition(rcs);
    var kept := KeptChanges(rcs);
    if ResourceChangeData(rc) in Entries(kept) {
      var i :| 0 <= i < |kept| && Entries(kept)[i] == ResourceChangeData(rc);
      assert kept[i] == rc;
    }
    if rc in kept {
      var i :| 0 <= i < |kept| && kept[i] == rc;
      assert Entries(kept)[i] == ResourceChangeData(rc);
    }
  }

  /** The plan data NewPlanData returns for a document, or its error: parsing,
      sanitising and formatting are tried in that order. */
  function PlanDataOf(lib: Lib, input: string): Result<PlanData>
  {
    match lib.parse(input)
    case None => Err(InvalidInput)
    case Some(plan) =>
      match lib.sanitize(plan)
      case None => Err(SanitizeFailed)
      case Some(sanitized) =>
        match Format.Formatted(lib, Some(sanitized))
        case Err(e) => Err(PrettifyFailed(e))
        case Ok(formatted) => Ok(Classified(formatted.resourceChanges))
  }

  lemma EntriesAppend(rcs: seq<ResourceChange>, rc: ResourceChange)
    ensures Entries(rcs + [rc]) == Entries(rcs) + [ResourceChangeData(rc)]
  {
  }

  /** NewPlanData: decode, sanitise, format, then walk the changes in order. */
  method NewPlanData(lib: Lib, input: string) returns (r: Result<PlanData>)
    ensures r == PlanDataOf(lib, input)
  {
    var plan := lib.parse(input);
    if plan.None? {
      return Err(InvalidInput);
    }
    var sanitized := lib.sanitize(plan.value);
    if sanitized.None? {
      return Err(SanitizeFailed);
    }
    var formatted := Format.FormatJsonPlan(lib, sanitized);
    if formatted.Err? {
      return Err(PrettifyFailed(formatted.error));
    }
    var rcs := formatted.value.resourceChanges;
    var created, updated, deleted, replaced: seq<string> := [], [], [], [];
    var entries: seq<ResourceChangeData> := [];
    var i := 0;
    while i < |rcs|
      invariant 0 <= i <= |rcs|
      invariant created == Addresses(BucketChanges(rcs[..i], Created))
      invariant updated == Addresses(BucketChanges(rcs[..i], Updated))
      invariant deleted == Addresses(BucketChanges(rcs[..i], Deleted))
      invariant replaced == Addresses(BucketChanges(rcs[..i], Replaced))
      invariant entries == Entries(KeptChanges(rcs[..i]))
    {
      var c := rcs[i];
      ClassifyStep(rcs, i, Created);
      ClassifyStep(rcs, i, Updated);
      ClassifyStep(rcs, i, Deleted);
      ClassifyStep(rcs, i, Replaced);
      if IsNoOp(c.change.actions) || IsRead(c.change.actions) {
        i := i + 1;
        continue;
      }
      if IsCreate(c.change.actions) {
        AddressesAppend(BucketChanges(rcs[..i], Created), c);
        created := created + [c.address];
      } else if IsUpdate(c.change.actions) {
        AddressesAppend(BucketChanges(rcs[..i], Updated), c);
        updated := updated + [c.address];
      } else if IsDelete(c.change.actions) {
        AddressesAppend(BucketChanges(rcs[..i], Deleted), c);
        deleted := deleted + [c.address];
      } else if IsReplace(c.change.actions) {
        AddressesAppend(BucketChanges(rcs[..i], Replaced), c);
        replaced := replaced + [c.address];
      }
      EntriesAppend(KeptChanges(rcs[..i]), c);
      entries := entries + [ResourceChangeData(c)];
      i := i + 1;
    }
    assert rcs[..i] == rcs;
    return Ok(PlanData(created, updated, deleted, replaced, entries));
  }

  // ---------------------------------------------------------------------------
  // The report

  /** One pass of the `range` over ResourceChanges: the entry's block around its diff. */
  function EntryBlock(e: ResourceChangeData, diff: string): string
  {
    Block(CodeFence, Header(e), diff)
  }

  /** planTemplateBody: summary counts are the list lengths, then the four
      sections, then the details section over the given blocks. */
  function Markdown(d: PlanData, blocks: seq<string>): string
  {
    Document(
      Summary(|d.createdAddresses|, |d.updatedAddresses|, |d.deletedAddresses|, |d.replacedAddresses|),
      Section("add", d.createdAddresses) + Section("change", d.updatedAddresses)
        + Section("destroy", d.deletedAddresses) + Section("replace", d.replacedAddresses),
      blocks)
  }

  /** Render: template execution fails with the first entry whose diff fails,
      and otherwise prints the report. */
  function Render(lib: Lib, d: PlanData, escapeHTML: bool): (r: Result<string>)
    ensures r.Ok? <==> forall i :: 0 <= i < |d.resourceChanges| ==> GetUnifiedDiffString(lib, d.resourceChanges[i], escapeHTML).Ok?
    ensures r.Err? ==> r.error.TemplateFailed? && exists i :: (0 <= i < |d.resourceChanges|
      && GetUnifiedDiffString(lib, d.resourceChanges[i], escapeHTML) == Err(r.error.cause)
      && forall j :: 0 <= j < i ==> GetUnifiedDiffString(lib, d.resourceChanges[j], escapeHTML).Ok?)
  {
    match Execute(d.resourceChanges, e => GetUnifiedDiffString(lib, e, escapeHTML), EntryBlock)
    case Err(e) => Err(TemplateFailed(e))
    case Ok(blocks) => Ok(Markdown(d, blocks))
  }

  /** Each entry becomes, in order, an eight-backtick block tagged diff under a
      "# <Header>" line holding that entry's diff. */
  lemma RenderBlocks(lib: Lib, d: PlanData, escapeHTML: bool)
    requires Render(lib, d, escapeHTML).Ok?
    ensures var es := d.resourceChanges;
      Render(lib, d, escapeHTML).value == Markdown(d, seq(|es|, i requires 0 <= i < |es| =>
        Block(CodeFence, Header(es[i]), GetUnifiedDiffString(lib, es[i], escapeHTML).value)))
  {
    var es := d.resourceChanges;
    var blocks := Execute(es, e => GetUnifiedDiffString(lib, e, escapeHTML), EntryBlock).value;
    assert blocks == seq(|es|, i requires 0 <= i < |es| =>
        Block(CodeFence, Header(es[i]), GetUnifiedDiffString(lib, es[i], escapeHTML).value));
  }

  /** With no kept change the report is exactly the zero summary line and a newline. */
  lemma NoChanges(lib: Lib, rcs: seq<ResourceChange>, escapeHTML: bool)
    requires KeptChanges(rcs) == []
    ensures Render(lib, Classified(rcs), escapeHTML) == Ok(EmptyReport)
  {
    NothingKept(rcs);
    var d := Classified(rcs);
    assert d.resourceChanges == [];
    assert Execute(d.resourceChanges, e => GetUnifiedDiffString(lib, e, escapeHTML), EntryBlock) == Ok([]);
    assert NatToString(0) == "0";
    assert Markdown(d, []) == Summary(0, 0, 0, 0) + "\n";
  }

  /** On a classified plan the details section is printed exactly when some change
      is kept. */
  lemma DetailsIffKept(lib: Lib, rcs: seq<ResourceChange>, escapeHTML: bool)
    requires Render(lib, Classified(rcs), escapeHTML).Ok?
    ensures EndsWith(Render(lib, Classified(rcs), escapeHTML).value, DetailsClose) <==> KeptChanges(rcs) != []
  {
    var d := Classified(rcs);
    if KeptChanges(rcs) == [] {
      NoChanges(lib, rcs, escapeHTML);
      EmptyReportOpen();
    } else {
      var blocks := Execute(d.resourceChanges, e => GetUnifiedDiffString(lib, e, escapeHTML), EntryBlock).value;
      assert blocks != [];
      DocumentShape(Summary(|d.createdAddresses|, |d.updatedAddresses|, |d.deletedAddresses|, |d.replacedAddresses|),
        Section("add", d.createdAddresses) + Section("change", d.updatedAddresses)
        + Section("destroy", d.deletedAddresses) + Section("replace", d.replacedAddresses), blocks);
    }
  }
}
