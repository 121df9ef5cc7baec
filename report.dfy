/** The pieces of Markdown every generation's template prints: the summary line,
    the per-bucket address lists, the fenced diff blocks and the collapsible
    details section, together with the template engine's stop-at-first-error
    evaluation of the diff blocks. */
module Report {
  import opened Wrappers
  import opened Text

  /** `### <c> to add, <u> to change, <d> to destroy, <r> to replace.` */
  function Summary(created: nat, updated: nat, deleted: nat, replaced: nat): string
  {
    "### " + (NatToString(created) + (" to add, " + (NatToString(updated) + (" to change, "
    + (NatToString(deleted) + (" to destroy, " + (NatToString(replaced) + " to replace.")))))))
  }

  /** A run of digits followed by a space cannot be a proper prefix of another run of digits. */
  lemma DigitsNoLonger(x: string, s: string, y: string, t: string)
    requires |s| > 0 && s[0] == ' '
    requires forall i :: 0 <= i < |y| ==> IsDigit(y[i])
    requires x + s == y + t
    ensures |y| <= |x|
  {
    assert !IsDigit((x + s)[|x|]);
    assert forall i :: 0 <= i < |y| ==> IsDigit((y + t)[i]);
  }

  /** Two decimal counts each followed by text that starts with a space can only
      be equal when the counts and the texts are. */
  lemma DigitsThenSpace(a: nat, b: nat, s: string, t: string)
    requires |s| > 0 && |t| > 0 && s[0] == ' ' && t[0] == ' '
    requires NatToString(a) + s == NatToString(b) + t
    ensures a == b && s == t
  {
    var x, y := NatToString(a), NatToString(b);
    DigitsNoLonger(x, s, y, t);
    DigitsNoLonger(y, t, x, s);
    assert x == (x + s)[..|x|] && y == (y + t)[..|y|];
    NatToStringInjective(a, b);
    assert s == (x + s)[|x|..] && t == (y + t)[|y|..];
  }

  lemma DropPrefix(p: string, s: string, t: string)
    requires p + s == p + t
    ensures s == t
  {
    assert s == (p + s)[|p|..] && t == (p + t)[|p|..];
  }

  /** The summary line determines the four counts it reports. */
  lemma SummaryInjective(c1: nat, u1: nat, d1: nat, r1: nat, c2: nat, u2: nat, d2: nat, r2: nat)
    requires Summary(c1, u1, d1, r1) == Summary(c2, u2, d2, r2)
    ensures c1 == c2 && u1 == u2 && d1 == d2 && r1 == r2
  {
    var r1s, r2s := NatToString(r1) + " to replace.", NatToString(r2) + " to replace.";
    var d1s, d2s := NatToString(d1) + (" to destroy, " + r1s), NatToString(d2) + (" to destroy, " + r2s);
    var u1s, u2s := NatToString(u1) + (" to change, " + d1s), NatToString(u2) + (" to change, " + d2s);
    DropPrefix("### ", NatToString(c1) + (" to add, " + u1s), NatToString(c2) + (" to add, " + u2s));
    DigitsThenSpace(c1, c2, " to add, " + u1s, " to add, " + u2s);
    DropPrefix(" to add, ", u1s, u2s);
    DigitsThenSpace(u1, u2, " to change, " + d1s, " to change, " + d2s);
    DropPrefix(" to change, ", d1s, d2s);
    DigitsThenSpace(d1, d2, " to destroy, " + r1s, " to destroy, " + r2s);
    DropPrefix(" to destroy, ", r1s, r2s);
    DigitsThenSpace(r1, r2, " to replace.", " to replace.");
  }

  /** The whole report of the later templates when nothing is kept:
      "### 0 to add, 0 to change, 0 to destroy, 0 to replace." and a newline. */
  const EmptyReport: string := Summary(0, 0, 0, 0) + "\n"

  /** The empty report has no details section: it does not end with the closing tag. */
  lemma EmptyReportOpen()
    ensures !EndsWith(EmptyReport, DetailsClose)
  {
    var md := EmptyReport;
    assert md[|md| - 2] == '.' && DetailsClose[|DetailsClose| - 2] == '>';
  }

  /** The body of a `{{ range }}` over addresses: one "\n    - <address>" per address. */
  function Items(addresses: seq<string>): string
  {
    if addresses == [] then ""
    else Items(addresses[..|addresses| - 1]) + "\n    - " + addresses[|addresses| - 1]
  }

  /** Listing two runs of addresses one after the other lists each in turn. */
  lemma {:induction false} ItemsJoin(xs: seq<string>, ys: seq<string>)
    ensures Items(xs + ys) == Items(xs) + Items(ys)
  {
    if ys == [] {
      assert xs + ys == xs;
    } else {
      var init := ys[..|ys| - 1];
      assert (xs + ys)[..|xs + ys| - 1] == xs + init;
      ItemsJoin(xs, init);
    }
  }

  /** Each address gets its own "    - " line, in list order. */
  lemma {:induction false} ItemsAreLines(addresses: seq<string>)
    ensures Items(addresses) == Concat(seq(|addresses|, i requires 0 <= i < |addresses| => "\n    - " + addresses[i]))
  {
    var lines := seq(|addresses|, i requires 0 <= i < |addresses| => "\n    - " + addresses[i]);
    if addresses != [] {
      var init := addresses[..|addresses| - 1];
      ItemsAreLines(init);
      assert lines[..|lines| - 1] == seq(|init|, i requires 0 <= i < |init| => "\n    - " + init[i]);
    }
  }

  /** A bucket section of the later templates, trimmed on its left and guarded by the list:
      nothing for an empty list, otherwise a "- heading" line and the item lines. */
  function Section(heading: string, addresses: seq<string>): (s: string)
    ensures s == "" <==> addresses == []
    ensures addresses != [] ==> StartsWith(s, "\n- " + heading)
  {
    if addresses == [] then "" else "\n- " + heading + Items(addresses)
  }

  /** One `{{ range .ResourceChanges }}` iteration: a fenced block tagged diff,
      the `# <header>` line, the diff text and the closing fence. */
  function Block(fence: string, header: string, diff: string): string
  {
    "\n" + fence + "diff\n# " + header + "\n" + diff + fence + "\n"
  }

  const DetailsOpen: string := "<details><summary>Change details</summary>\n"
  const DetailsClose: string := "\n</details>\n"

  /** The document the later templates print: summary, the sections, a newline,
      and the details section only when there is at least one entry. */
  function Document(summary: string, sections: string, blocks: seq<string>): string
  {
    summary + sections + "\n" + (if blocks == [] then "" else DetailsOpen + Concat(blocks) + DetailsClose)
  }

  /** With no entry the document ends right after the sections; otherwise it ends
      with the closing details tag and holds every block, in order. */
  lemma DocumentShape(summary: string, sections: string, blocks: seq<string>)
    ensures blocks == [] ==> Document(summary, sections, blocks) == summary + sections + "\n"
    ensures blocks != [] ==> EndsWith(Document(summary, sections, blocks), DetailsClose)
    ensures blocks != [] ==> StartsWith(Document(summary, sections, blocks), summary + sections + "\n" + DetailsOpen)
  {
  }

  /** Template execution over the entries: each entry's diff is taken in order
      and turned into its block; execution stops at the first entry whose diff
      fails, and that error is the one reported. */
  function Execute<E, B>(entries: seq<E>, diff: E -> Result<string>, block: (E, string) -> B): (r: Result<seq<B>>)
    ensures r.Ok? <==> forall i :: 0 <= i < |entries| ==> diff(entries[i]).Ok?
    ensures r.Ok? ==> |r.value| == |entries|
    ensures r.Ok? ==> forall i :: 0 <= i < |entries| ==> r.value[i] == block(entries[i], diff(entries[i]).value)
    ensures r.Err? ==> exists i :: (0 <= i < |entries| && diff(entries[i]) == Err(r.error)
      && forall j :: 0 <= j < i ==> diff(entries[j]).Ok?)
  {
    if entries == [] then Ok([])
    else match diff(entries[0])
      case Err(e) => Err(e)
      case Ok(t) =>
        match Execute(entries[1..], diff, block)
        case Err(e) => Err(e)
        case Ok(bs) => Ok([block(entries[0], t)] + bs)
  }

  /** Executing two runs of entries one after the other: the first run's error if
      it has one, else the second run's, else both runs' blocks in order. */
  lemma {:induction false} ExecuteJoin<E, B>(xs: seq<E>, ys: seq<E>, diff: E -> Result<string>, block: (E, string) -> B)
    ensures Execute(xs + ys, diff, block) ==
      match Execute(xs, diff, block)
      case Err(e) => Err(e)
      case Ok(a) =>
        match Execute(ys, diff, block)
        case Err(e) => Err(e)
        case Ok(b) => Ok(a + b)
  {
    if xs == [] {
      assert xs + ys == ys;
      match Execute(ys, diff, block)
      case Err(e) =>
      case Ok(b) => assert [] + b == b;
    } else {
      assert (xs + ys)[0] == xs[0];
      assert (xs + ys)[1..] == xs[1..] + ys;
      ExecuteJoin(xs[1..], ys, diff, block);
      match diff(xs[0])
      case Err(e) =>
      case Ok(t) =>
        match Execute(xs[1..], diff, block)
        case Err(e) =>
        case Ok(a) =>
          match Execute(ys, diff, block)
          case Err(e) =>
          case Ok(b) =>
            assert [block(xs[0], t)] + (a + b) == ([block(xs[0], t)] + a) + b;
    }
  }
}
