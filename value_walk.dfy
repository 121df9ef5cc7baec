/** The recursive walk over a change's before/after values that both
    internal/format/format_json.go and internal/pretty_print/pretty_json.go
    perform: lists index by index, maps key by key, every string handed to a
    leaf rewrite, every other value passed through. A leaf returns `None` when
    its re-serialisation fails, which aborts the whole walk. */
module ValueWalk {
  import opened Wrappers
  import opened Tfjson

  /** The value the walk produces, or `None` when some leaf failed. */
  function Walk(leaf: string -> Option<string>, v: Json): Option<Json>
  {
    match v
    case Str(s) =>
      (match leaf(s)
       case None => None
       case Some(t) => Some(Str(t)))
    case Arr(xs) =>
      if forall i :: 0 <= i < |xs| ==> Walk(leaf, xs[i]).Some? then
        Some(Arr(seq(|xs|, i requires 0 <= i < |xs| => Walk(leaf, xs[i]).value)))
      else
        None
    case Obj(m) =>
      if forall k :: k in m ==> Walk(leaf, m[k]).Some? then
        Some(Obj(map k | k in m :: Walk(leaf, m[k]).value))
      else
        None
    case _ => Some(v)
  }

  /** `a` and `b` have the same tree shape: same scalars, lists of the same length,
      maps with the same key set, and the same shape below; strings may differ. */
  predicate SameShape(a: Json, b: Json)
  {
    match a
    case Str(_) => b.Str?
    case Arr(xs) =>
      b.Arr? && |xs| == |b.items| &&
      forall i :: 0 <= i < |xs| ==> SameShape(xs[i], b.items[i])
    case Obj(m) =>
      b.Obj? && m.Keys == b.fields.Keys &&
      forall k :: k in m ==> SameShape(m[k], b.fields[k])
    case _ => a == b
  }

  /** Every string stored anywhere in `v`. */
  function StringLeaves(v: Json): set<string>
  {
    match v
    case Str(s) => {s}
    case Arr(xs) => set i, s | 0 <= i < |xs| && s in StringLeaves(xs[i]) :: s
    case Obj(m) => set k, s | k in m && s in StringLeaves(m[k]) :: s
    case _ => {}
  }

  /** A successful walk keeps the shape of the tree: lists keep their length,
      maps keep their key set, numbers, booleans and null are unchanged. */
  lemma {:induction false} WalkKeepsShape(leaf: string -> Option<string>, v: Json)
    requires Walk(leaf, v).Some?
    ensures SameShape(v, Walk(leaf, v).value)
  {
    match v
    case Arr(xs) =>
      forall i | 0 <= i < |xs| ensures SameShape(xs[i], Walk(leaf, v).value.items[i]) {
        WalkKeepsShape(leaf, xs[i]);
      }
    case Obj(m) =>
      forall k | k in m ensures SameShape(m[k], Walk(leaf, v).value.fields[k]) {
        WalkKeepsShape(leaf, m[k]);
      }
    case _ =>
  }

  /** The walk fails exactly when the leaf rewrite fails on some string of the tree. */
  lemma {:induction false} WalkFailsIff(leaf: string -> Option<string>, v: Json)
    ensures Walk(leaf, v).None? <==> exists s :: s in StringLeaves(v) && leaf(s).None?
  {
    match v
    case Arr(xs) =>
      forall i | 0 <= i < |xs| { WalkFailsIff(leaf, xs[i]); }
      if Walk(leaf, v).None? {
        var i :| 0 <= i < |xs| && Walk(leaf, xs[i]).None?;
        var s :| s in StringLeaves(xs[i]) && leaf(s).None?;
        assert s in StringLeaves(v);
      }
    case Obj(m) =>
      forall k | k in m { WalkFailsIff(leaf, m[k]); }
      if Walk(leaf, v).None? {
        var k :| k in m && Walk(leaf, m[k]).None?;
        var s :| s in StringLeaves(m[k]) && leaf(s).None?;
        assert s in StringLeaves(v);
      }
    case _ =>
  }

  /** Two leaf rewrites that agree on every string give the same walk. */
  lemma {:induction false} WalkAgrees(l1: string -> Option<string>, l2: string -> Option<string>, v: Json)
    requires forall s :: l1(s) == l2(s)
    ensures Walk(l1, v) == Walk(l2, v)
  {
    match v
    case Arr(xs) =>
      forall i | 0 <= i < |xs| ensures Walk(l1, xs[i]) == Walk(l2, xs[i]) {
        WalkAgrees(l1, l2, xs[i]);
      }
      if Walk(l1, v).Some? {
        assert Walk(l1, v).value.items == Walk(l2, v).value.items;
      }
    case Obj(m) =>
      forall k | k in m ensures Walk(l1, m[k]) == Walk(l2, m[k]) {
        WalkAgrees(l1, l2, m[k]);
      }
      if Walk(l1, v).Some? {
        assert Walk(l1, v).value.fields == Walk(l2, v).value.fields;
      }
    case _ =>
  }

  /** When the leaf rewrite is a fixed point on its own output (re-formatting a
      formatted string changes nothing), walking a walked tree changes nothing. */
  lemma {:induction false} WalkIdempotent(leaf: string -> Option<string>, v: Json)
    requires forall s, t :: leaf(s) == Some(t) ==> leaf(t) == Some(t)
    requires Walk(leaf, v).Some?
    ensures Walk(leaf, Walk(leaf, v).value) == Walk(leaf, v)
  {
    var w := Walk(leaf, v).value;
    match v
    case Arr(xs) =>
      forall i | 0 <= i < |xs| ensures Walk(leaf, w.items[i]) == Some(w.items[i]) {
        WalkIdempotent(leaf, xs[i]);
      }
      assert w.items == seq(|xs|, i requires 0 <= i < |xs| => Walk(leaf, w.items[i]).value);
    case Obj(m) =>
      forall k | k in m ensures Walk(leaf, w.fields[k]) == Some(w.fields[k]) {
        WalkIdempotent(leaf, m[k]);
      }
      assert w.Obj? && w.fields.Keys == m.Keys;
      assert forall k :: k in w.fields ==> Walk(leaf, w.fields[k]).Some?;
      assert Walk(leaf, w).value.fields == w.fields;
    case _ =>
  }

  /** The walk as the Go code performs it: each list element and each map value is
      overwritten in place by its rewritten form, and the first failure aborts.
      Map keys are visited in an unspecified order, like Go's map iteration. */
  method WalkValue(leaf: string -> Option<string>, v: Json) returns (r: Option<Json>)
    ensures r == Walk(leaf, v)
    decreases v
  {
    match v {
      case Arr(xs) =>
        var ys := xs;
        var i := 0;
        while i < |ys|
          invariant 0 <= i <= |ys| == |xs|
          invariant forall j :: 0 <= j < i ==> Walk(leaf, xs[j]).Some? && ys[j] == Walk(leaf, xs[j]).value
          invariant ys[i..] == xs[i..]
        {
          assert ys[i] == xs[i];
          var e := WalkValue(leaf, ys[i]);
          if e.None? {
            assert !(forall j :: 0 <= j < |xs| ==> Walk(leaf, xs[j]).Some?) by {
              assert Walk(leaf, xs[i]).None?;
            }
            return None;
          }
          ys := ys[i := e.value];
          i := i + 1;
        }
        WalkedItems(leaf, xs, ys);
        return Some(Arr(ys));
      case Obj(m) =>
        var out := m;
        var todo := m.Keys;
        while todo != {}
          invariant todo <= m.Keys && out.Keys == m.Keys
          invariant forall k :: k in m && k !in todo ==> Walk(leaf, m[k]).Some? && out[k] == Walk(leaf, m[k]).value
          invariant forall k :: k in todo ==> out[k] == m[k]
          decreases todo
        {
          var k :| k in todo;
          var e := WalkValue(leaf, out[k]);
          if e.None? {
            assert !(forall k' :: k' in m ==> Walk(leaf, m[k']).Some?) by {
              assert Walk(leaf, m[k]).None?;
            }
            return None;
          }
          out := out[k := e.value];
          todo := todo - {k};
        }
        WalkedFields(leaf, m, out);
        return Some(Obj(out));
      case Str(s) =>
        var t := leaf(s);
        if t.None? {
          return None;
        }
        return Some(Str(t.value));
      case _ =>
        return Some(v);
    }
  }

  /** A list whose every element was walked successfully is the walked list. */
  lemma WalkedItems(leaf: string -> Option<string>, xs: seq<Json>, ys: seq<Json>)
    requires |ys| == |xs|
    requires forall j :: 0 <= j < |xs| ==> Walk(leaf, xs[j]).Some? && ys[j] == Walk(leaf, xs[j]).value
    ensures Walk(leaf, Arr(xs)) == Some(Arr(ys))
  {
    assert ys == seq(|xs|, j requires 0 <= j < |xs| => Walk(leaf, xs[j]).value);
  }

  /** A map whose every value was walked successfully is the walked map. */
  lemma WalkedFields(leaf: string -> Option<string>, m: map<string, Json>, out: map<string, Json>)
    requires out.Keys == m.Keys
    requires forall k :: k in m ==> Walk(leaf, m[k]).Some? && out[k] == Walk(leaf, m[k]).value
    ensures Walk(leaf, Obj(m)) == Some(Obj(out))
  {
    var w := map k | k in m :: Walk(leaf, m[k]).value;
    assert Walk(leaf, Obj(m)) == Some(Obj(w));
    assert w.Keys == out.Keys;
    assert forall k :: k in w ==> w[k] == out[k];
    assert w == out;
  }

  /** A change with its `before` value walked first and its `after` value second;
      the actions and the sensitive and unknown shadows are copied unchanged. */
  function WalkChange(leaf: string -> Option<string>, c: Change): (r: Option<Change>)
    ensures r.Some? <==> Walk(leaf, c.before).Some? && Walk(leaf, c.after).Some?
    ensures r.Some? ==>
      && r.value.actions == c.actions
      && r.value.afterUnknown == c.afterUnknown
      && r.value.beforeSensitive == c.beforeSensitive
      && r.value.afterSensitive == c.afterSensitive
      && r.value.before == Walk(leaf, c.before).value
      && r.value.after == Walk(leaf, c.after).value
  {
    match Walk(leaf, c.before)
    case None => None
    case Some(b) =>
      match Walk(leaf, c.after)
      case None => None
      case Some(a) => Some(c.(before := b, after := a))
  }

  /** formatJsonChange / prettyChange: the straight-line body over a private copy. */
  method WalkChangeValues(leaf: string -> Option<string>, c: Change) returns (r: Option<Change>)
    ensures r == WalkChange(leaf, c)
  {
    var result := c;
    var b := WalkValue(leaf, result.before);
    if b.None? {
      return None;
    }
    result := result.(before := b.value);
    var a := WalkValue(leaf, result.after);
    if a.None? {
      return None;
    }
    result := result.(after := a.value);
    return Some(result);
  }

  /** Every resource change of the plan with its change walked; `None` as soon as one fails. */
  function WalkPlan(leaf: string -> Option<string>, p: Plan): (r: Option<Plan>)
    ensures r.Some? <==> forall i :: 0 <= i < |p.resourceChanges| ==> WalkChange(leaf, p.resourceChanges[i].change).Some?
    ensures r.Some? ==> |r.value.resourceChanges| == |p.resourceChanges|
    ensures r.Some? ==> forall i :: 0 <= i < |p.resourceChanges| ==>
      r.value.resourceChanges[i] == p.resourceChanges[i].(change := WalkChange(leaf, p.resourceChanges[i].change).value)
  {
    var rcs := p.resourceChanges;
    if forall i :: 0 <= i < |rcs| ==> WalkChange(leaf, rcs[i].change).Some? then
      Some(Plan(seq(|rcs|, i requires 0 <= i < |rcs| => rcs[i].(change := WalkChange(leaf, rcs[i].change).value))))
    else
      None
  }

  /** The loop of FormatJsonPlan / PrettyPrintPlan over the copied plan: each
      resource change gets its change replaced by the walked one, in order. */
  method WalkPlanChanges(leaf: string -> Option<string>, p: Plan) returns (r: Option<Plan>)
    ensures r == WalkPlan(leaf, p)
  {
    var rcs := p.resourceChanges;
    var i := 0;
    while i < |rcs|
      invariant 0 <= i <= |rcs| == |p.resourceChanges|
      invariant forall j :: 0 <= j < i ==> WalkChange(leaf, p.resourceChanges[j].change).Some?
      invariant forall j :: 0 <= j < i ==>
        rcs[j] == p.resourceChanges[j].(change := WalkChange(leaf, p.resourceChanges[j].change).value)
      invariant rcs[i..] == p.resourceChanges[i..]
    {
      assert rcs[i] == p.resourceChanges[i];
      var c := WalkChangeValues(leaf, rcs[i].change);
      if c.None? {
        return None;
      }
      rcs := rcs[i := rcs[i].(change := c.value)];
      i := i + 1;
    }
    assert rcs == seq(|rcs|, j requires 0 <= j < |rcs| =>
      p.resourceChanges[j].(change := WalkChange(leaf, p.resourceChanges[j].change).value));
    return Some(Plan(rcs));
  }
  /** Two leaf rewrites that agree on every string give the same plan walk. */
  lemma WalkPlanAgrees(l1: string -> Option<string>, l2: string -> Option<string>, p: Plan)
    requires forall s :: l1(s) == l2(s)
    ensures WalkPlan(l1, p) == WalkPlan(l2, p)
  {
    var rcs := p.resourceChanges;
    forall i | 0 <= i < |rcs| ensures WalkChange(l1, rcs[i].change) == WalkChange(l2, rcs[i].change) {
      WalkAgrees(l1, l2, rcs[i].change.before);
      WalkAgrees(l1, l2, rcs[i].change.after);
    }
    if WalkPlan(l1, p).Some? {
      assert WalkPlan(l1, p).value.resourceChanges == WalkPlan(l2, p).value.resourceChanges;
    }
  }
}
