/** internal/render/moved_block_renderer.go: a synthetic resource block for a
    moved resource, listing only the attributes id, name and tags. */
module MovedBlock {
  import opened Tfjson
  import opened Foreign
  import opened Text

  /** importantAttributes, in their fixed order. */
  const ImportantAttributes: seq<string> := ["id", "name", "tags"]

  /** "<previous address> has moved to <address>". */
  function Header(rc: ResourceChange): (h: string)
    ensures |h| == |rc.previousAddress| + |" has moved to "| + |rc.address|
    ensures h[..|rc.previousAddress|] == rc.previousAddress
    ensures h[|h| - |rc.address|..] == rc.address
  {
    rc.previousAddress + " has moved to " + rc.address
  }

  function Spaces(n: nat): (r: string)
    ensures |r| == n && forall i :: 0 <= i < n ==> r[i] == ' '
  {
    if n == 0 then "" else Spaces(n - 1) + " "
  }

  /** fmt's `%-*s`: left-justified, padded with spaces to at least `width` characters. */
  function PadRight(s: string, width: nat): (r: string)
    ensures |r| == if |s| < width then width else |s|
    ensures r[..|s|] == s
    ensures forall i :: |s| <= i < |r| ==> r[i] == ' '
  {
    if |s| < width then s + Spaces(width - |s|) else s
  }

  /** value: strings through `%q`, everything else through `%v`. */
  function Value(lib: Lib, v: Json): string
  {
    if v.Str? then lib.quote(v.s) else lib.show(v)
  }

  /** One attribute line: `  %-*s = %s\n` with width 2. */
  function Line(lib: Lib, key: string, v: Json): string
  {
    "  " + PadRight(key, 2) + " = " + Value(lib, v) + "\n"
  }

  /** The lines written for the allow-listed keys `keys` that the after map has, in order. */
  function AttributeLines(lib: Lib, after: map<string, Json>, keys: seq<string>): seq<string>
  {
    if keys == [] then []
    else
      var k := keys[|keys| - 1];
      AttributeLines(lib, after, keys[..|keys| - 1]) + (if k in after then [Line(lib, k, after[k])] else [])
  }

  /** One more key of the allow-list adds its line when the after map has it. */
  lemma AttributeLinesStep(lib: Lib, after: map<string, Json>, keys: seq<string>, i: nat)
    requires i < |keys|
    ensures Concat(AttributeLines(lib, after, keys[..i + 1])) ==
      Concat(AttributeLines(lib, after, keys[..i])) + (if keys[i] in after then Line(lib, keys[i], after[keys[i]]) else "")
  {
    assert keys[..i + 1][..i] == keys[..i];
    var lines := AttributeLines(lib, after, keys[..i]);
    if keys[i] in after {
      ConcatAppend(lines, Line(lib, keys[i], after[keys[i]]));
    } else {
      assert lines + [] == lines;
    }
  }

  /** Attributes: the allow-list loop appending to a buffer. */
  method Attributes(lib: Lib, rc: ResourceChange) returns (s: string)
    requires rc.change.after.Obj?
    ensures s == Concat(AttributeLines(lib, rc.change.after.fields, ImportantAttributes))
  {
    var after := rc.change.after.fields;
    var keys := ImportantAttributes;
    var buff := "";
    var i := 0;
    while i < |keys|
      invariant 0 <= i <= |keys|
      invariant buff == Concat(AttributeLines(lib, after, keys[..i]))
    {
      var attr := keys[i];
      AttributeLinesStep(lib, after, keys, i);
      if attr in after {
        buff := buff + Line(lib, attr, after[attr]);
      }
      i := i + 1;
    }
    assert keys[..|keys|] == keys;
    s := buff;
  }

  /** Render: the `resource "<type>" "<name>" {` line, the attribute lines, and `}`. */
  method Render(lib: Lib, rc: ResourceChange) returns (s: string)
    requires rc.change.after.Obj?
    ensures s == "resource \"" + rc.resourceType + "\" \"" + rc.name + "\" {\n"
               + Concat(AttributeLines(lib, rc.change.after.fields, ImportantAttributes)) + "}\n"
  {
    var attrs := Attributes(lib, rc);
    s := "resource \"" + rc.resourceType + "\" \"" + rc.name + "\" {\n" + attrs + "}\n";
  }

  /** The allow-listed keys the after map has, kept in allow-list order. */
  function Present(after: map<string, Json>, keys: seq<string>): (ks: seq<string>)
    ensures |ks| <= |keys|
    ensures forall k :: k in ks <==> k in keys && k in after
  {
    if keys == [] then []
    else
      assert keys == [keys[0]] + keys[1..];
      (if keys[0] in after then [keys[0]] else []) + Present(after, keys[1..])
  }

  lemma {:induction false} PresentAppend(after: map<string, Json>, keys: seq<string>, k: string)
    ensures Present(after, keys + [k]) == Present(after, keys) + (if k in after then [k] else [])
  {
    if keys == [] {
      assert keys + [k] == [k];
      assert [k][1..] == [];
    } else {
      assert (keys + [k])[0] == keys[0];
      assert (keys + [k])[1..] == keys[1..] + [k];
      PresentAppend(after, keys[1..], k);
    }
  }

  /** "  <key> = <value>\n" for each of the given keys, in order. */
  function Lines(lib: Lib, after: map<string, Json>, ks: seq<string>): seq<string>
    requires forall k :: k in ks ==> k in after
  {
    seq(|ks|, j requires 0 <= j < |ks| => "  " + ks[j] + " = " + Value(lib, after[ks[j]]) + "\n")
  }

  lemma LinesAppend(lib: Lib, after: map<string, Json>, ks: seq<string>, k: string)
    requires forall x :: x in ks ==> x in after
    requires k in after
    ensures Lines(lib, after, ks + [k]) == Lines(lib, after, ks) + ["  " + k + " = " + Value(lib, after[k]) + "\n"]
  {
  }

  lemma {:induction false} LinesInOrder(lib: Lib, after: map<string, Json>, keys: seq<string>)
    requires forall i :: 0 <= i < |keys| ==> |keys[i]| >= 2
    ensures AttributeLines(lib, after, keys) == Lines(lib, after, Present(after, keys))
  {
    if keys != [] {
      var init, k := keys[..|keys| - 1], keys[|keys| - 1];
      assert |k| >= 2;
      assert forall i :: 0 <= i < |init| ==> |init[i]| >= 2 by {
        forall i | 0 <= i < |init| ensures |init[i]| >= 2 { assert init[i] == keys[i]; }
      }
      LinesInOrder(lib, after, init);
      assert keys == init + [k];
      PresentAppend(after, init, k);
      var ps := Present(after, init);
      if k in after {
        assert PadRight(k, 2) == k;
        LinesAppend(lib, after, ps, k);
      } else {
        assert ps + [] == ps;
      }
    }
  }

  /** One line per allow-listed key present in the after map, in allow-list
      order, each "  <key> = <value>\n" (no key here is shorter than the width). */
  lemma AttributeLinesAre(lib: Lib, after: map<string, Json>, keys: seq<string>)
    requires forall i :: 0 <= i < |keys| ==> |keys[i]| >= 2
    ensures AttributeLines(lib, after, keys) == Lines(lib, after, Present(after, keys))
    ensures |AttributeLines(lib, after, keys)| <= |keys|
    ensures AttributeLines(lib, after, keys) == []  <==> forall i :: 0 <= i < |keys| ==> keys[i] !in after
    ensures forall j :: 0 <= j < |AttributeLines(lib, after, keys)| ==>
      exists i :: 0 <= i < |keys| && keys[i] in after &&
        AttributeLines(lib, after, keys)[j] == "  " + keys[i] + " = " + Value(lib, after[keys[i]]) + "\n"
  {
    LinesInOrder(lib, after, keys);
    var ps := Present(after, keys);
    forall j | 0 <= j < |ps|
      ensures exists i :: (0 <= i < |keys| && keys[i] in after &&
        Lines(lib, after, ps)[j] == "  " + keys[i] + " = " + Value(lib, after[keys[i]]) + "\n")
    {
      assert ps[j] in ps;
      var i :| 0 <= i < |keys| && keys[i] == ps[j];
    }
    if exists i :: 0 <= i < |keys| && keys[i] in after {
      var i :| 0 <= i < |keys| && keys[i] in after;
      assert keys[i] in ps;
    }
  }

  /** The attribute body spelled out: the id line, the name line and the tags
      line, each exactly when the after map has that key, in that order. */
  lemma ImportantLines(lib: Lib, after: map<string, Json>)
    ensures AttributeLines(lib, after, ImportantAttributes) ==
      (if "id" in after then ["  id = " + Value(lib, after["id"]) + "\n"] else [])
      + (if "name" in after then ["  name = " + Value(lib, after["name"]) + "\n"] else [])
      + (if "tags" in after then ["  tags = " + Value(lib, after["tags"]) + "\n"] else [])
  {
    var keys := ImportantAttributes;
    var id := if "id" in after then [Line(lib, "id", after["id"])] else [];
    var name := if "name" in after then [Line(lib, "name", after["name"])] else [];
    var tags := if "tags" in after then [Line(lib, "tags", after["tags"])] else [];
    assert ["id"][..0] == [] && ["id"][0] == "id";
    assert AttributeLines(lib, after, ["id"]) == [] + id;
    assert ["id", "name"][..1] == ["id"] && ["id", "name"][1] == "name";
    assert AttributeLines(lib, after, ["id", "name"]) == id + name;
    assert keys[..2] == ["id", "name"] && keys[2] == "tags";
    assert AttributeLines(lib, after, keys) == id + name + tags;
    assert PadRight("id", 2) == "id" && PadRight("name", 2) == "name" && PadRight("tags", 2) == "tags";
    assert "  " + "id" + " = " == "  id = " && "  " + "name" + " = " == "  name = " && "  " + "tags" + " = " == "  tags = ";
  }

  /** The block body has at most three lines, and none exactly when the after
      map has none of id, name and tags. */
  lemma AttributeBody(lib: Lib, after: map<string, Json>)
    ensures |AttributeLines(lib, after, ImportantAttributes)| <= 3
    ensures AttributeLines(lib, after, ImportantAttributes) == [] <==>
      "id" !in after && "name" !in after && "tags" !in after
  {
    ImportantLines(lib, after);
  }

  /** Keys outside the allow-list never reach the output: two after maps that
      agree on the allow-listed keys render the same attributes. */
  lemma {:induction false} OnlyListedKeys(lib: Lib, a: map<string, Json>, b: map<string, Json>, keys: seq<string>)
    requires forall i :: 0 <= i < |keys| ==> (keys[i] in a <==> keys[i] in b)
    requires forall i :: 0 <= i < |keys| && keys[i] in a ==> a[keys[i]] == b[keys[i]]
    ensures AttributeLines(lib, a, keys) == AttributeLines(lib, b, keys)
  {
    if keys != [] {
      var init := keys[..|keys| - 1];
      assert forall i :: 0 <= i < |init| ==> init[i] == keys[i];
      OnlyListedKeys(lib, a, b, init);
    }
  }
}
