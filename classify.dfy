/** The classification every generation of the converter performs (main.go,
    internal/template, internal/converter, internal/terraform): resource changes
    are walked in input order, no-op and read changes are dropped, every other
    change goes to the first bucket whose test matches (create, update, delete,
    replace, in that order) and yields one renderable entry. */
module Classify {
  import opened Wrappers
  import opened Tfjson

  datatype Bucket = Created | Updated | Deleted | Replaced

  /** A change survives the `NoOp() || Read()` skip. */
  predicate Kept(rc: ResourceChange)
  {
    !IsNoOp(rc.change.actions) && !IsRead(rc.change.actions)
  }

  /** The `switch` over Create(), Update(), Delete(), Replace(): first match wins;
      `None` when no case matches. */
  function BucketOf(a: seq<Action>): (b: Option<Bucket>)
    ensures b == Some(Created) <==> IsCreate(a)
    ensures b == Some(Updated) <==> IsUpdate(a)
    ensures b == Some(Deleted) <==> IsDelete(a)
    ensures b == Some(Replaced) <==> IsReplace(a)
    ensures b.None? <==> !IsCreate(a) && !IsUpdate(a) && !IsDelete(a) && !IsReplace(a)
  {
    if IsCreate(a) then Some(Created)
    else if IsUpdate(a) then Some(Updated)
    else if IsDelete(a) then Some(Deleted)
    else if IsReplace(a) then Some(Replaced)
    else None
  }

  /** HeaderSuffix / headerSuffix / the `message` of the loop: one phrase per
      bucket, and "" when no bucket matched. */
  function Suffix(a: seq<Action>): (s: string)
    ensures s == "will be created" <==> IsCreate(a)
    ensures s == "will be updated in-place" <==> IsUpdate(a)
    ensures s == "will be destroyed" <==> IsDelete(a)
    ensures s == "will be replaced" <==> IsReplace(a)
    ensures s == "" <==> BucketOf(a).None?
  {
    match BucketOf(a)
    case Some(Created) => "will be created"
    case Some(Updated) => "will be updated in-place"
    case Some(Deleted) => "will be destroyed"
    case Some(Replaced) => "will be replaced"
    case None => ""
  }

  predicate InBucket(rc: ResourceChange, b: Bucket)
  {
    Kept(rc) && BucketOf(rc.change.actions) == Some(b)
  }

  predicate Unmatched(rc: ResourceChange)
  {
    Kept(rc) && BucketOf(rc.change.actions).None?
  }

  /** The kept changes that land in bucket `b`, in input order. */
  function BucketChanges(rcs: seq<ResourceChange>, b: Bucket): seq<ResourceChange>
  {
    if rcs == [] then []
    else
      var last := rcs[|rcs| - 1];
      BucketChanges(rcs[..|rcs| - 1], b) + (if InBucket(last, b) then [last] else [])
  }

  /** The kept changes that match no bucket (an action list none of the tests accept). */
  function UnmatchedChanges(rcs: seq<ResourceChange>): seq<ResourceChange>
  {
    if rcs == [] then []
    else
      var last := rcs[|rcs| - 1];
      UnmatchedChanges(rcs[..|rcs| - 1]) + (if Unmatched(last) then [last] else [])
  }

  /** All kept changes, in input order: one renderable entry each. */
  function KeptChanges(rcs: seq<ResourceChange>): seq<ResourceChange>
  {
    if rcs == [] then []
    else
      var last := rcs[|rcs| - 1];
      KeptChanges(rcs[..|rcs| - 1]) + (if Kept(last) then [last] else [])
  }

  /** The classification step for one more change `rcs[i]`. */
  lemma ClassifyStep(rcs: seq<ResourceChange>, i: nat, b: Bucket)
    requires i < |rcs|
    ensures BucketChanges(rcs[..i + 1], b) == BucketChanges(rcs[..i], b) + (if InBucket(rcs[i], b) then [rcs[i]] else [])
    ensures KeptChanges(rcs[..i + 1]) == KeptChanges(rcs[..i]) + (if Kept(rcs[i]) then [rcs[i]] else [])
  {
    assert rcs[..i + 1][..i] == rcs[..i];
  }

  function Addresses(rcs: seq<ResourceChange>): (r: seq<string>)
    ensures |r| == |rcs| && forall i :: 0 <= i < |rcs| ==> r[i] == rcs[i].address
  {
    seq(|rcs|, i requires 0 <= i < |rcs| => rcs[i].address)
  }

  lemma AddressesAppend(rcs: seq<ResourceChange>, rc: ResourceChange)
    ensures Addresses(rcs + [rc]) == Addresses(rcs) + [rc.address]
  {
  }

  /** Bucket `b` holds exactly the input's changes that are kept and match `b` first. */
  lemma {:induction false} BucketMembers(rcs: seq<ResourceChange>, b: Bucket, rc: ResourceChange)
    ensures rc in BucketChanges(rcs, b) <==> rc in rcs && InBucket(rc, b)
  {
    if rcs != [] {
      var init := rcs[..|rcs| - 1];
      BucketMembers(init, b, rc);
      assert rcs == init + [rcs[|rcs| - 1]];
    }
  }

  /** The renderable entries are exactly the input's kept changes. */
  lemma {:induction false} KeptMembers(rcs: seq<ResourceChange>, rc: ResourceChange)
    ensures rc in KeptChanges(rcs) <==> rc in rcs && Kept(rc)
  {
    if rcs != [] {
      var init := rcs[..|rcs| - 1];
      KeptMembers(init, rc);
      assert rcs == init + [rcs[|rcs| - 1]];
    }
  }

  /** The buckets and the unmatched changes partition the kept changes: every kept
      change is counted in exactly one of them, so the entry count is their total. */
  lemma {:induction false} Partition(rcs: seq<ResourceChange>)
    ensures multiset(BucketChanges(rcs, Created)) + multiset(BucketChanges(rcs, Updated))
          + multiset(BucketChanges(rcs, Deleted)) + multiset(BucketChanges(rcs, Replaced))
          + multiset(UnmatchedChanges(rcs)) == multiset(KeptChanges(rcs))
    ensures |BucketChanges(rcs, Created)| + |BucketChanges(rcs, Updated)|
          + |BucketChanges(rcs, Deleted)| + |BucketChanges(rcs, Replaced)|
          + |UnmatchedChanges(rcs)| == |KeptChanges(rcs)|
  {
    if rcs != [] {
      var init, last := rcs[..|rcs| - 1], rcs[|rcs| - 1];
      Partition(init);
      var c, u := BucketChanges(init, Created), BucketChanges(init, Updated);
      var d, r := BucketChanges(init, Deleted), BucketChanges(init, Replaced);
      var n, k := UnmatchedChanges(init), KeptChanges(init);
      var c1, u1 := Own(last, InBucket(last, Created)), Own(last, InBucket(last, Updated));
      var d1, r1 := Own(last, InBucket(last, Deleted)), Own(last, InBucket(last, Replaced));
      var n1, k1 := Own(last, Unmatched(last)), Own(last, Kept(last));
      assert BucketChanges(rcs, Created) == c + c1 && BucketChanges(rcs, Updated) == u + u1;
      assert BucketChanges(rcs, Deleted) == d + d1 && BucketChanges(rcs, Replaced) == r + r1;
      assert UnmatchedChanges(rcs) == n + n1 && KeptChanges(rcs) == k + k1;
      OneChange(last);
      assert multiset(c1) + multiset(u1) + multiset(d1) + multiset(r1) + multiset(n1) == multiset(k1);
      SumParts(multiset(c), multiset(u), multiset(d), multiset(r), multiset(n),
               multiset(c1), multiset(u1), multiset(d1), multiset(r1), multiset(n1));
    }
  }

  /** `[rc]` when `b` holds, otherwise nothing. */
  function Own(rc: ResourceChange, b: bool): seq<ResourceChange>
  {
    if b then [rc] else []
  }

  /** A kept change lands in exactly one bucket or among the unmatched ones. */
  lemma OneChange(rc: ResourceChange)
    ensures multiset(Own(rc, InBucket(rc, Created))) + multiset(Own(rc, InBucket(rc, Updated)))
          + multiset(Own(rc, InBucket(rc, Deleted))) + multiset(Own(rc, InBucket(rc, Replaced)))
          + multiset(Own(rc, Unmatched(rc))) == multiset(Own(rc, Kept(rc)))
  {
  }

  lemma SumParts<T>(c: multiset<T>, u: multiset<T>, d: multiset<T>, r: multiset<T>, n: multiset<T>,
                    c1: multiset<T>, u1: multiset<T>, d1: multiset<T>, r1: multiset<T>, n1: multiset<T>)
    ensures (c + c1) + (u + u1) + (d + d1) + (r + r1) + (n + n1) == (c + u + d + r + n) + (c1 + u1 + d1 + r1 + n1)
  {
  }

  /** Classification works element by element from left to right, so classifying
      a concatenation concatenates the results: each list keeps input order. */
  lemma {:induction false} OrderPreserved(xs: seq<ResourceChange>, ys: seq<ResourceChange>, b: Bucket)
    ensures BucketChanges(xs + ys, b) == BucketChanges(xs, b) + BucketChanges(ys, b)
    ensures KeptChanges(xs + ys) == KeptChanges(xs) + KeptChanges(ys)
  {
    if ys == [] {
      assert xs + ys == xs;
    } else {
      var init := ys[..|ys| - 1];
      assert (xs + ys)[..|xs + ys| - 1] == xs + init;
      OrderPreserved(xs, init, b);
    }
  }

  predicate UniqueAddresses(rcs: seq<ResourceChange>)
  {
    forall i, j :: 0 <= i < j < |rcs| ==> rcs[i].address != rcs[j].address
  }

  /** An address is listed under bucket `b` exactly when some input change with that
      address is kept and matches `b` first. */
  lemma AddressListed(rcs: seq<ResourceChange>, b: Bucket, a: string)
    ensures a in Addresses(BucketChanges(rcs, b)) <==>
      exists i :: 0 <= i < |rcs| && rcs[i].address == a && InBucket(rcs[i], b)
  {
    var bs := BucketChanges(rcs, b);
    if a in Addresses(bs) {
      var j :| 0 <= j < |bs| && bs[j].address == a;
      BucketMembers(rcs, b, bs[j]);
    }
    if exists i :: 0 <= i < |rcs| && rcs[i].address == a && InBucket(rcs[i], b) {
      var i :| 0 <= i < |rcs| && rcs[i].address == a && InBucket(rcs[i], b);
      BucketMembers(rcs, b, rcs[i]);
      var j :| 0 <= j < |bs| && bs[j] == rcs[i];
      assert Addresses(bs)[j] == a;
    }
  }

  /** With unique addresses (as in any Terraform plan), the address lists are
      pairwise disjoint, and a dropped change (no-op or read) appears in none. */
  lemma BucketsExclusive(rcs: seq<ResourceChange>, b1: Bucket, b2: Bucket, a: string)
    requires UniqueAddresses(rcs)
    ensures a in Addresses(BucketChanges(rcs, b1)) && a in Addresses(BucketChanges(rcs, b2)) ==> b1 == b2
    ensures forall i :: 0 <= i < |rcs| && rcs[i].address == a && !Kept(rcs[i]) ==>
      a !in Addresses(BucketChanges(rcs, b1)) && rcs[i] !in KeptChanges(rcs)
  {
    AddressListed(rcs, b1, a);
    AddressListed(rcs, b2, a);
    forall i | 0 <= i < |rcs| && rcs[i].address == a && !Kept(rcs[i])
      ensures rcs[i] !in KeptChanges(rcs)
    {
      KeptMembers(rcs, rcs[i]);
    }
  }

  /** With no kept change every bucket is empty. */
  lemma NothingKept(rcs: seq<ResourceChange>)
    requires KeptChanges(rcs) == []
    ensures BucketChanges(rcs, Created) == [] && BucketChanges(rcs, Updated) == []
    ensures BucketChanges(rcs, Deleted) == [] && BucketChanges(rcs, Replaced) == []
  {
    Partition(rcs);
  }

  /** A non-empty bucket means a non-empty list of entries. */
  lemma BucketedIsKept(rcs: seq<ResourceChange>, b: Bucket)
    requires BucketChanges(rcs, b) != []
    ensures KeptChanges(rcs) != []
  {
    Partition(rcs);
  }
}
