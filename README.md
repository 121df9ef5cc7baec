# terraform-j2md, modelled in Dafny

terraform-j2md reads the JSON document that `terraform show -json` prints for a
plan and writes a Markdown report of it. The report has four parts:

- a summary line with the number of resources to add, change, destroy and replace;
- one list of addresses per kind of change;
- a collapsible "Change details" section;
- in that section, one fenced `diff` block per changed resource, with the
  resource's state before and after the change.

The repository holds four generations of this converter side by side. This
project models each of them, together with the helpers they share.

- **`main.go`**: the first generation (module `J2md`). It computes every diff
  while it builds the template data, so any failing diff aborts the build.
  Its template prints a `- <label>` and one `    - <address>` line per
  resource of each kind, but it trims the line break after the add, change
  and delete lists, so the label that follows runs onto the last address
  line (see Findings).
- **`internal/template` and `internal/converter`**: two nearly identical
  generations (modules `Template` and `Converter`). Each has a plan-data
  builder that never fails and a renderer whose diffs are computed lazily
  while the template runs. Block headers show the type and name without the
  module address.
- **`internal/terraform`**: the latest generation (module `TerraformPlan`).
  - The builder decodes the document, sanitises it and pretty-prints the JSON
    strings inside the values.
  - The renderer encodes both sides, with or without HTML escaping, and takes
    their unified diff.
  - It rewrites the escapes `\n` and `\"` in both encoded texts, then diffs
    them, so an escaped newline inside a value becomes diff lines of its own.
  - Its headers carry the module address.
  - `unified_diff_renderer.go` (module `TerraformDiffRenderer`) renders one
    change the same way.
- **Value rewriting**:
  - `internal/format/format_json.go` (module `Format`) and its near copy
    `internal/pretty_print/pretty_json.go` (module `PrettyPrint`) replace every
    string that holds JSON with its indented form. Both are written over one
    shared walk (module `ValueWalk`).
  - `internal/format/format_unknown.go` (module `FormatUnknown`) writes
    "(known after apply)" into each attribute of an update whose
    unknown-after-apply entry is a boolean, `true` or `false`.
- **`internal/render/moved_block_renderer.go`** (module `MovedBlock`): renders
  a moved resource as a `resource "<type>" "<name>" { ... }` block. The block
  holds the `id`, `name` and `tags` attributes when they are present.

Shared pieces:

- `Classify`: which changes are kept, which bucket (create, update, delete,
  replace) takes each one, and the header phrase for each bucket.
- `Report`: the summary line, the address lists, the details section, and
  template execution over the entries. Execution stops at the first diff that
  fails.
- `Diffing`: the unified diff, with 3 lines of context.
- `Text`: the decimal printing of counts.
- `Foreign`: the libraries the code calls, passed in as one record of total
  functions named `Lib`. `Lib` covers JSON validity, decoding, indentation and
  encoding, plan parsing, sanitising, the diff library, `%q` and `%v`.

The global `config` of `internal/terraform` becomes an explicit `escapeHTML`
parameter.

## Model

| member | source | states |
|---|---|---|
| Classify.BucketOf | internal/terraform/plan.go:166-175 | the bucket is Created, Updated, Deleted or Replaced exactly when the action list is a create, update, delete or replace; it is None exactly when none of the four matches |
| Classify.Suffix | internal/terraform/plan.go:115-127 | the header phrase is "will be created", "will be updated in-place", "will be destroyed" or "will be replaced" exactly for a create, update, delete or replace, and empty exactly when no bucket matches |
| Classify.ClassifyStep | internal/terraform/plan.go:161-179 | one step of the loop appends the change to a bucket exactly when the change belongs to that bucket, and to the entries exactly when the change is kept |
| Classify.BucketMembers | internal/terraform/plan.go:161-175 | a change is in a bucket if and only if it is in the plan and is kept and classified into that bucket |
| Classify.KeptMembers | internal/terraform/plan.go:161-164 | a change is an entry if and only if it is in the plan and is neither a no-op nor a read |
| Classify.Partition | internal/terraform/plan.go:161-178 | the four buckets and the kept-but-unmatched changes together are exactly the kept changes, as multisets and by count |
| Classify.OrderPreserved | internal/terraform/plan.go:161-179 | classifying two plans one after the other gives the concatenation of their buckets and entries, so plan order is kept |
| Classify.AddressListed | internal/terraform/plan.go:166-175 | an address appears in a bucket's address list if and only if some change with that address belongs to the bucket |
| Classify.BucketsExclusive | internal/terraform/plan.go:161-175 | with unique addresses, no address is listed under two buckets, and a dropped change is never an entry |
| Classify.NothingKept | internal/terraform/plan.go:161-175 | when no change is kept, all four buckets are empty |
| Classify.BucketedIsKept | internal/terraform/plan.go:166-178 | a non-empty bucket implies a non-empty entry list |
| Text.NatToString | internal/terraform/plan.go:17 | a count prints as at least one decimal digit, with no leading zero unless the count is 0 |
| Text.NatToStringRoundTrip | internal/terraform/plan.go:17 | reading the printed digits back gives the count |
| Text.NatToStringInjective | internal/terraform/plan.go:17 | different counts print differently |
| Report.SummaryInjective | internal/terraform/plan.go:17 | the four counts can be read back from the summary line |
| Report.ItemsAreLines | internal/terraform/plan.go:18-20 | the address list is one "\n    - <address>" line per address, in order |
| Report.ItemsJoin | internal/terraform/plan.go:18-20 | the list of two address sequences is the two lists one after the other |
| Report.Section | internal/terraform/plan.go:18-33 | a section is empty exactly when its list is empty; otherwise it starts with "\n- <heading>" |
| Report.DocumentShape | internal/terraform/plan.go:34-42 | with no entries the report ends right after the sections; otherwise it opens the details section after them and ends with the closing tag |
| Report.EmptyReportOpen | internal/terraform/plan.go:17-42 | the report printed when nothing is kept does not end with the closing details tag |
| Report.Execute | internal/terraform/plan.go:36-41 | execution succeeds if and only if every entry's diff succeeds; it then yields one block per entry, in order, built from that diff; on failure it reports the error of the first failing entry |
| Report.ExecuteJoin | internal/terraform/plan.go:36-41 | executing over two entry lists in sequence is the first, then the second unless the first failed |
| Foreign.Encode | internal/terraform/plan.go:103-113 | encoding succeeds exactly when the encoder does, and appends the encoder's trailing newline |
| Diffing.DiffTexts | internal/terraform/plan.go:61-83 | a failed before side reports BeforeInvalid, then a failed after side reports AfterInvalid; the result is the library diff with context 3 exactly when both sides and the diff succeed |
| Diffing.IndentedDiff | internal/converter/plan_template.go:31-50 | the diff of the indented before and after texts; BeforeInvalid or AfterInvalid when a side does not serialise |
| TerraformPlan.UnescapePlain | internal/terraform/plan.go:71-74 | the escape rewrite leaves a text without backslashes unchanged |
| TerraformPlan.UnescapeJoin | internal/terraform/plan.go:71-74 | the rewrite of a text cut after a non-backslash is the rewrite of each piece, concatenated |
| TerraformPlan.UnescapeEscapedBackslash | internal/terraform/plan.go:71 | the rewrite does not overlap: an escaped backslash followed by n keeps its first backslash and turns the second with the n into a line break |
| TerraformPlan.HeaderShape | internal/terraform/plan.go:85-93 | the header ends with a space and the action phrase, starts with "<module>." for a resource in a module, and is exactly as long as the module prefix, type, name, separators and phrase together |
| TerraformPlan.GetUnifiedDiffString | internal/terraform/plan.go:61-83 | the error of the first side that fails to encode, or the rewritten library diff of the two encodings |
| TerraformPlan.ClassifiedEntries | internal/terraform/plan.go:160-179 | a change has an entry if and only if it is in the plan and kept; the four address lists and the unmatched kept changes together count every entry |
| TerraformPlan.NewPlanData | internal/terraform/plan.go:147-181 | returns the plan data of a decoded, sanitised and formatted document, or the parse, sanitise or format error in that order |
| TerraformPlan.Render | internal/terraform/plan.go:129-145 | rendering succeeds if and only if every entry's diff succeeds; otherwise the template error carries the error of the first failing entry |
| TerraformPlan.RenderBlocks | internal/terraform/plan.go:34-42 | each entry becomes, in order, an eight-backtick block tagged diff under its header, holding its diff |
| TerraformPlan.NoChanges | internal/terraform/plan.go:17-42 | with no kept change the report is the zero summary line and a newline |
| TerraformPlan.DetailsIffKept | internal/terraform/plan.go:34-42 | the report ends with the closing details tag exactly when some change is kept |
| TerraformDiffRenderer.Render | internal/terraform/unified_diff_renderer.go:21-43 | renders exactly as the plan entry does, with the renderer's own escaping flag, including its error cases |
| TerraformDiffRenderer.HeadersAgree | internal/terraform/unified_diff_renderer.go:45-49 | for a resource outside any module, its header equals the plan entry's header |
| TerraformDiffRenderer.HeaderShape | internal/terraform/unified_diff_renderer.go:45-63 | the header is the address, a space and the phrase, and it is only the address and space exactly when no bucket matches |
| ValueWalk.WalkKeepsShape | internal/format/format_json.go:48-78 | the rewritten value has the same arrays, object keys and scalars as the original; only strings change |
| ValueWalk.WalkFailsIff | internal/format/format_json.go:48-78 | the walk fails if and only if rewriting some string leaf fails |
| ValueWalk.WalkAgrees | internal/pretty_print/pretty_json.go:48-78 | two leaf rewrites that agree on every string give the same walk |
| ValueWalk.WalkIdempotent | internal/format/format_json.go:66-74 | when rewriting a string again leaves it unchanged, walking twice is walking once |
| ValueWalk.WalkValue | internal/format/format_json.go:48-78 | the loop over array items and object keys yields the recursive walk of the value |
| ValueWalk.WalkChange | internal/format/format_json.go:30-46 | a change is rewritten exactly when its before and after both are, and only those two parts change |
| ValueWalk.WalkChangeValues | internal/format/format_json.go:30-46 | the method yields the walk of the change |
| ValueWalk.WalkPlan | internal/format/format_json.go:20-25 | the plan is rewritten exactly when every change is; each change is replaced by its rewrite, and nothing else changes |
| ValueWalk.WalkPlanChanges | internal/format/format_json.go:20-25 | the loop over resource changes yields the walk of the plan |
| ValueWalk.WalkPlanAgrees | internal/pretty_print/pretty_json.go:10-28 | two leaf rewrites that agree on every string give the same plan walk |
| Format.FormatString | internal/format/format_json.go:66-74 | a string that is valid JSON and decodes is replaced by its indented form; any other string is kept |
| Format.FormatJsonChangeValue | internal/format/format_json.go:48-78 | strings are indented when they hold JSON, scalars are kept, the shape is preserved, and the result is the walk |
| Format.FormatJsonChange | internal/format/format_json.go:30-46 | the change's before and after are walked |
| Format.Formatted | internal/format/format_json.go:10-28 | a nil plan is NilPlan; otherwise every change is formatted or an encoding failure is reported, and the plan keeps its length and all other fields |
| Format.FormatJsonPlan | internal/format/format_json.go:10-28 | the method yields the formatted plan or its error |
| Format.FormatIdempotent | internal/format/format_json.go:66-74 | when indenting indented JSON gives the same text, formatting twice is formatting once |
| PrettyPrint.PrettyString | internal/pretty_print/pretty_json.go:66-74 | same rule as the formatter, with the two checks in the opposite order |
| PrettyPrint.PrettyChangeValue | internal/pretty_print/pretty_json.go:48-78 | strings are indented when they hold JSON, scalars are kept, the shape is preserved, and the result is the walk |
| PrettyPrint.PrettyChange | internal/pretty_print/pretty_json.go:30-46 | the change's before and after are walked |
| PrettyPrint.PrettyPrintPlan | internal/pretty_print/pretty_json.go:10-28 | a nil plan is NilPlan; otherwise the walked plan or EncodingFailed |
| PrettyPrint.PrettyAgreesWithFormat | internal/pretty_print/pretty_json.go:48-78 | the duplicate gives the same values and plans as the formatter |
| FormatUnknown.Flagged | internal/format/format_unknown.go:26-30 | an attribute is rewritten if and only if its entry among the unknown-after-apply values is a boolean |
| FormatUnknown.NormalizeUnknown | internal/format/format_unknown.go:24-34 | an update gets "(known after apply)" for each flagged attribute and keeps its other attributes; any other change is unchanged |
| FormatUnknown.NormalizeIdempotent | internal/format/format_unknown.go:24-34 | normalising twice is normalising once |
| FormatUnknown.FormatUnknownChange | internal/format/format_unknown.go:24-34 | the in-place rewrite yields the normalised change |
| FormatUnknown.FormatUnknownPlan | internal/format/format_unknown.go:8-22 | a nil plan is an error; otherwise the same plan is returned, with every change normalised in place and its length kept |
| MovedBlock.Header | internal/render/moved_block_renderer.go:43-45 | the header is the previous address, " has moved to " and the new address |
| MovedBlock.PadRight | internal/render/moved_block_renderer.go:51 | the name is padded with spaces to width 2 and is never cut |
| MovedBlock.Attributes | internal/render/moved_block_renderer.go:47-55 | one line per important attribute present in the after value, in the order id, name, tags |
| MovedBlock.Render | internal/render/moved_block_renderer.go:30-41 | the block is the resource line for the type and name, the attribute lines and a closing brace |
| MovedBlock.AttributeLinesAre | internal/render/moved_block_renderer.go:47-64 | the lines are exactly "  <key> = <value>" for the listed keys present in the value, one per key and in list order; there are none exactly when no listed key is present |
| MovedBlock.ImportantLines | internal/render/moved_block_renderer.go:16-55 | the body is the id line, then the name line, then the tags line, each present exactly when the value has that key |
| MovedBlock.AttributeBody | internal/render/moved_block_renderer.go:16-55 | at most three lines, and none exactly when none of id, name and tags is present |
| MovedBlock.OnlyListedKeys | internal/render/moved_block_renderer.go:47-55 | attributes outside the list never affect the block |
| Converter.Backquote | internal/converter/plan_template.go:27-29 | the fence is three backticks |
| Converter.GetUnifiedDiffString | internal/converter/plan_template.go:31-50 | the diff of the indented before and after texts, with context 3 |
| Converter.ClassifiedShape | internal/converter/plan_template.go:52-98 | each count is the length of its list, each list holds exactly its bucket, and the entries are exactly the kept changes with their phrases |
| Converter.NewPlanData | internal/converter/plan_template.go:52-98 | the loop never fails and yields the classified plan |
| Converter.HeaderDropsModule | internal/converter/template_renderer.go:33 | the header is the latest generation's header for the same change with the module prefix taken away |
| Converter.Render | internal/converter/template_renderer.go:39-61 | InvalidInput exactly when parsing fails; for a parsed plan, Ok exactly when the diff of every kept change succeeds; otherwise a template error carrying the error of the first kept change whose diff fails |
| Converter.NoChanges | internal/converter/template_renderer.go:12-37 | with no kept change the output is the zero summary line and a newline |
| Converter.DetailsIffKept | internal/converter/template_renderer.go:29-37 | the output ends with the closing details tag exactly when some change is kept |
| Converter.RenderBlocks | internal/converter/template_renderer.go:31-35 | each kept change becomes, in order, a three-backtick diff block under "<type>.<name> <phrase>" |
| Template.Backquote | internal/template/plan_template.go:27-29 | the fence is three backticks |
| Template.Diff | internal/template/plan_template.go:31-50 | the diff of the indented before and after texts; its errors are BeforeInvalid, AfterInvalid or DiffFailed |
| Template.ClassifiedShape | internal/template/plan_template.go:52-98 | each count is the length of its list, each list holds exactly its bucket, and the entries are exactly the kept changes with their phrases |
| Template.NewTemplateData | internal/template/plan_template.go:52-98 | the loop never fails and yields the classified plan |
| Template.Render | internal/template/template_renderer.go:39-61 | InvalidInput exactly when parsing fails; for a parsed plan, Ok exactly when the diff of every kept change succeeds; otherwise a template error carrying the error of the first kept change whose diff fails |
| Template.NoChanges | internal/template/template_renderer.go:12-37 | with no kept change the output is the zero summary line and a newline |
| Template.DetailsIffKept | internal/template/template_renderer.go:29-37 | the output ends with the closing details tag exactly when some change is kept |
| Template.RenderBlocks | internal/template/template_renderer.go:31-35 | each kept change becomes, in order, a three-backtick diff block under "<type>.<name> <message>" |
| J2md.CreateResourceDiffString | main.go:55-74 | the diff of the indented before and after texts; its errors are BeforeInvalid, AfterInvalid or DiffFailed |
| J2md.EagerDiffs | main.go:105-114 | the data is built if and only if every kept change's diff succeeds; then entry i holds kept change i, its phrase, its diff and three backticks; otherwise the error is the first failing diff's |
| J2md.BucketsOf | main.go:85-127 | each count is the length of its list, and a change is in a list if and only if it is kept and classified into that bucket |
| J2md.NewTemplateData | main.go:76-128 | the loop yields the template data, or the error of the first kept change whose diff fails |
| J2md.GluedLabel | main.go:16-19 | as written, when something is created and something updated, the last created address runs into "- change" on the same line |
| J2md.GluedExample | main.go:16-21 | a created "a" and an updated "b" print "    - a- change" |
| J2md.LabelsStartLines | main.go:16-27 | in the corrected template each non-empty list starts its own line with "- <label>" |
| J2md.FixIsLocal | main.go:25-27 | with no add, change or delete list, the corrected and the as-written report coincide |
| J2md.DetailsAlwaysClosed | main.go:28-34 | the report always ends with the closing details tag, even when the details section is empty |
| J2md.Render | main.go:130-152 | InvalidInput exactly when parsing fails; otherwise an error exactly when building the data fails, wrapped as a plan-data error; on success the text of the template as written over that data |
| J2md.RenderGlues | main.go:130-152 | whenever the plan creates and updates something, the printed report runs the last created address into "- change" |
| J2md.RenderCorrected | main.go:130-152 | with the corrected template: the same errors as render, and on success the corrected report of the same data |
| J2md.NoChanges | main.go:15-35 | with no kept change the report is the zero summary line, two empty lines and the closing details tag |

## Left out

- JSON decoding and encoding, indentation, sanitising and the unified diff come from libraries that are not part of this model. They are the total functions of `Foreign.Lib`. The model states how the core combines them, not what they compute.
- The template engine itself is not modelled. Each template is written out as the string it prints. A template error becomes an `Err` and the partial output written before it is dropped.
- Parsing the fixed template texts cannot fail, so the "invalid template text" branches are not modelled.
- The deep copies `copyPlan` and `copyChange` made with the copier library are treated as producing an equal value, and their failure is not modelled. `EncodingFailed` stands for any failure of the indenter inside the walk.
- One `parse` function of `Foreign.Lib` stands for both plan decoders: the streaming decoder of `internal/terraform`, which reads the first JSON value and ignores what follows it, and `json.Unmarshal` in the other generations, which rejects trailing data. The model does not distinguish the inputs one accepts and the other rejects.
- The walk over an object visits keys in Go's random map order, and the first error stops it. The model reports the one error constant, whichever key failed first.
- Type assertions that panic are not modelled. An update whose unknown-after-apply value or after value is not an object must not be passed to `FormatUnknown.FormatUnknownChange`; in Go that assertion panics.
- MovedBlock.Render: requires the moved change's after value to be an object. When it is not, the assertion inside `Attributes` panics, the template execution recovers the panic, and Go's `Render` returns a "failed to render template" error; the requires excludes that error path.
- JSON numbers are Dafny reals. Go's float64 rounding is not modelled.
- MovedBlock.Value has no contract of its own: `%q` and `%v` are library printers taken from `Foreign.Lib`.
- The `run` and `main` functions, the command under `cmd/`, reading stdin, writing stdout and exit codes are I/O and are not modelled.
- The `io.Writer` of `internal/terraform`'s Render is replaced by the returned string.
- The escaping flag is modelled as the `escapeHTML` parameter and is passed to the encoder exactly as given. No default value is assumed.
- Nothing here models concurrency or the tests.

## Findings

| source | as written | input that shows it | evidently intended | confidence | as-written member | corrected member |
|---|---|---|---|---|---|---|
| main.go:16-24 | the right trim after each of the add, change and delete lists also removes the newline after the list's last address, so the next label joins that line | a plan with one created resource "a" and one updated resource "b" prints "    - a- change" | each "- <label>" starts a line of its own, as in the later templates | not executed | J2md.RenderGlues | J2md.LabelsStartLines |
