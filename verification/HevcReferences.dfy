/** references of src/hevc_annexb.cpp: which frames the picture refers to, and in which order. */
module HevcReferences {
  import opened Bitstring
  import opened HevcPicture
  import opened Wrappers

  datatype Reference = Reference(index: nat, poc: int32, used: bool)

  datatype References = References(
    before: seq<Reference>, after: seq<Reference>, longTerm: seq<Reference>, list0: seq<nat>, list1: seq<nat>)
  {
    function List(l: nat): seq<nat> {
      if l == 0 then list0 else list1
    }
  }

  datatype Group = Before | After | LongTermGroup

  function GroupOf(curr: int, f: VaPicture): Group {
    if f.longTerm then LongTermGroup else if f.poc < curr then Before else After
  }

  function Entry(frames: seq<VaPicture>, i: nat): Reference
    requires i < |frames|
  {
    Reference(i, frames[i].poc, frames[i].Used())
  }

  // Frame i is a reference of this group.
  predicate In(curr: int, frames: seq<VaPicture>, i: nat, g: Group) {
    i < |frames| && frames[i].Present() && GroupOf(curr, frames[i]) == g
  }

  // The references whose POCs a picture may carry: none is the picture itself, no two agree.
  predicate DistinctPocs(curr: int, frames: seq<VaPicture>) {
    && (forall i :: 0 <= i < |frames| && frames[i].Present() ==> frames[i].poc != curr)
    && forall i, j :: 0 <= i < j < |frames| && frames[i].Present() && frames[j].Present() ==>
         frames[i].poc != frames[j].poc
  }

  // s holds exactly the references of the group among the first n frames.
  predicate Holds(curr: int, frames: seq<VaPicture>, n: nat, g: Group, s: seq<Reference>) {
    && (forall r :: r in s ==> r.index < n && In(curr, frames, r.index, g) && r == Entry(frames, r.index))
    && forall i :: 0 <= i < n && In(curr, frames, i, g) ==> Entry(frames, i) in s
  }

  function Key(r: Reference, descending: bool): int {
    if descending then -(r.poc as int) else r.poc
  }

  predicate StrictlySorted(s: seq<Reference>, descending: bool) {
    forall i, j :: 0 <= i < j < |s| ==> Key(s[i], descending) < Key(s[j], descending)
  }

  function UsedIndexes(s: seq<Reference>): (r: seq<nat>)
    ensures |r| <= |s|
  {
    if s == [] then [] else (if s[0].used then [s[0].index] else []) + UsedIndexes(s[1..])
  }

  // What references() returns for a picture.
  predicate IsReferences(p: Picture, refs: References) {
    && Holds(p.currPoc, p.frames, |p.frames|, Before, refs.before) && StrictlySorted(refs.before, true)
    && Holds(p.currPoc, p.frames, |p.frames|, After, refs.after) && StrictlySorted(refs.after, false)
    && Holds(p.currPoc, p.frames, |p.frames|, LongTermGroup, refs.longTerm) && StrictlySorted(refs.longTerm, true)
    && refs.list0 == UsedIndexes(refs.before) + UsedIndexes(refs.after) + UsedIndexes(refs.longTerm)
    && refs.list1 == UsedIndexes(refs.after) + UsedIndexes(refs.before) + UsedIndexes(refs.longTerm)
    && |refs.before| + |refs.after| + |refs.longTerm| <= |p.frames|
  }

  // ---------- references() ----------

  function Insert(x: Reference, s: seq<Reference>, descending: bool): (r: seq<Reference>)
    ensures |r| == |s| + 1
    ensures forall y :: y in r <==> y == x || y in s
  {
    if s == [] || Key(x, descending) < Key(s[0], descending) then [x] + s
    else [s[0]] + Insert(x, s[1..], descending)
  }

  lemma {:induction false} InsertSorts(x: Reference, s: seq<Reference>, descending: bool)
    requires StrictlySorted(s, descending)
    requires forall y :: y in s ==> y.poc != x.poc
    ensures StrictlySorted(Insert(x, s, descending), descending)
  {
    if s != [] && Key(s[0], descending) < Key(x, descending) {
      InsertSorts(x, s[1..], descending);
      var r := Insert(x, s[1..], descending);
      forall i | 0 <= i < |r| ensures Key(s[0], descending) < Key(r[i], descending) {
        assert r[i] in r;
      }
    }
  }

  // std::sort with one of the two orders, on references with distinct POCs.
  method Sort(s: seq<Reference>, descending: bool) returns (r: seq<Reference>)
    requires forall i, j :: 0 <= i < j < |s| ==> s[i].poc != s[j].poc
    ensures StrictlySorted(r, descending)
    ensures |r| == |s| && forall x :: x in r <==> x in s
  {
    r := [];
    var n := 0;
    while n < |s|
      invariant 0 <= n <= |s| && |r| == n
      invariant forall x :: x in r <==> x in s[..n]
      invariant StrictlySorted(r, descending)
    {
      InsertSorts(s[n], r, descending);
      r := Insert(s[n], r, descending);
      assert s[..n + 1] == s[..n] + [s[n]];
      n := n + 1;
    }
    assert s[..|s|] == s;
  }

  // The indexes of a group's used references, appended to a list.
  method PushUsed(list: seq<nat>, group: seq<Reference>) returns (r: seq<nat>)
    ensures r == list + UsedIndexes(group)
  {
    r := list;
    var i := 0;
    assert group[0..] == group;
    while i < |group|
      invariant 0 <= i <= |group|
      invariant r + UsedIndexes(group[i..]) == list + UsedIndexes(group)
    {
      assert group[i..][1..] == group[i + 1..];
      if group[i].used {
        r := r + [group[i].index];
      }
      i := i + 1;
    }
    assert group[i..] == [];
  }

  // One group gathered so far: its references among the first n frames, in frame order.
  predicate Gathered(curr: int, frames: seq<VaPicture>, n: nat, g: Group, s: seq<Reference>) {
    && Holds(curr, frames, n, g, s)
    && forall i, j :: 0 <= i < j < |s| ==> s[i].index < s[j].index
  }

  lemma GatherNext(curr: int, frames: seq<VaPicture>, n: nat, g: Group, s: seq<Reference>)
    requires n < |frames| && Gathered(curr, frames, n, g, s)
    ensures In(curr, frames, n, g) ==> Gathered(curr, frames, n + 1, g, s + [Entry(frames, n)])
    ensures !In(curr, frames, n, g) ==> Gathered(curr, frames, n + 1, g, s)
  {
    var t := s + [Entry(frames, n)];
    assert Entry(frames, n) in t;
    assert forall r :: r in s ==> r in t;
  }

  lemma GatheredDistinct(curr: int, frames: seq<VaPicture>, g: Group, s: seq<Reference>)
    requires DistinctPocs(curr, frames) && Gathered(curr, frames, |frames|, g, s)
    ensures Holds(curr, frames, |frames|, g, s)
    ensures forall i, j :: 0 <= i < j < |s| ==> s[i].poc != s[j].poc
  {
    forall i, j | 0 <= i < j < |s| ensures s[i].poc != s[j].poc {
      assert s[i] in s && s[j] in s;
    }
  }

  // The checks made so far, on the first n frames.
  ghost predicate DistinctSoFar(curr: int, frames: seq<VaPicture>, n: nat, pocs: set<int>)
    requires n <= |frames|
  {
    && DistinctPocs(curr, frames[..n])
    && forall v :: v in pocs <==> exists i :: 0 <= i < n && frames[i].Present() && frames[i].poc == v
  }

  lemma DistinctNext(curr: int, frames: seq<VaPicture>, n: nat, pocs: set<int>)
    requires n < |frames| && DistinctSoFar(curr, frames, n, pocs)
    ensures
      var f := frames[n];
      if !f.Present() then DistinctSoFar(curr, frames, n + 1, pocs)
      else if f.poc != curr && f.poc !in pocs then DistinctSoFar(curr, frames, n + 1, pocs + {f.poc})
      else !DistinctPocs(curr, frames)
  {
    assert frames[..n + 1] == frames[..n] + [frames[n]];
    assert forall i :: 0 <= i < n ==> frames[..n][i] == frames[i];
  }

  method BuildReferences(p: Picture) returns (res: Result<References>)
    requires WellFormed(p)
    ensures res.Success? <==> DistinctPocs(p.currPoc, p.frames)
    ensures res.Success? ==> IsReferences(p, res.value)
  {
    hide DistinctPocs, DistinctSoFar, Holds, Gathered, StrictlySorted, UsedIndexes;
    var curr, frames := p.currPoc, p.frames;
    var before, after, longTerm: seq<Reference>, pocs: set<int> := [], [], [], {};
    NothingGathered(curr, frames);
    var i := 0;
    while i < 15
      invariant 0 <= i <= 15
      invariant DistinctSoFar(curr, frames, i, pocs)
      invariant Gathered(curr, frames, i, Before, before)
      invariant Gathered(curr, frames, i, After, after)
      invariant Gathered(curr, frames, i, LongTermGroup, longTerm)
      invariant |before| + |after| + |longTerm| <= i
    {
      var r := frames[i];
      DistinctNext(curr, frames, i, pocs);
      GatherNext(curr, frames, i, Before, before);
      GatherNext(curr, frames, i, After, after);
      GatherNext(curr, frames, i, LongTermGroup, longTerm);
      if r.Present() {
        :- Need(r.poc != curr && r.poc !in pocs, Invalid);
        pocs := pocs + {r.poc};
        var entry := Reference(i, r.poc, r.Used());
        if r.longTerm {
          longTerm := longTerm + [entry];
        } else if r.poc < curr {
          before := before + [entry];
        } else {
          after := after + [entry];
        }
      }
      i := i + 1;
    }
    AllDistinct(curr, frames, pocs);
    GatheredDistinct(curr, frames, Before, before);
    GatheredDistinct(curr, frames, After, after);
    GatheredDistinct(curr, frames, LongTermGroup, longTerm);
    var b := Sort(before, true);
    var a := Sort(after, false);
    var l := Sort(longTerm, true);
    SameMembers(curr, frames, Before, before, b);
    SameMembers(curr, frames, After, after, a);
    SameMembers(curr, frames, LongTermGroup, longTerm, l);
    var list0 := PushUsed([], b);
    list0 := PushUsed(list0, a);
    list0 := PushUsed(list0, l);
    var list1 := PushUsed([], a);
    list1 := PushUsed(list1, b);
    list1 := PushUsed(list1, l);
    return Success(References(b, a, l, list0, list1));
  }

  lemma NothingGathered(curr: int, frames: seq<VaPicture>)
    ensures DistinctSoFar(curr, frames, 0, {})
    ensures forall g :: Gathered(curr, frames, 0, g, [])
  {
  }

  lemma AllDistinct(curr: int, frames: seq<VaPicture>, pocs: set<int>)
    requires DistinctSoFar(curr, frames, |frames|, pocs)
    ensures DistinctPocs(curr, frames)
  {
    assert frames[..|frames|] == frames;
  }

  lemma SameMembers(curr: int, frames: seq<VaPicture>, g: Group, s: seq<Reference>, r: seq<Reference>)
    requires Holds(curr, frames, |frames|, g, s)
    requires forall x :: x in r <==> x in s
    ensures Holds(curr, frames, |frames|, g, r)
  {
  }

  // A group sorted as it is gathered.
  function SortedGroup(curr: int, frames: seq<VaPicture>, n: nat, g: Group, descending: bool): seq<Reference>
    requires n <= |frames|
  {
    if n == 0 then []
    else
      var s := SortedGroup(curr, frames, n - 1, g, descending);
      if In(curr, frames, n - 1, g) then Insert(Entry(frames, n - 1), s, descending) else s
  }

  lemma {:induction false} SortedGroupHolds(curr: int, frames: seq<VaPicture>, n: nat, g: Group, descending: bool)
    requires n <= |frames| && DistinctPocs(curr, frames)
    ensures Holds(curr, frames, n, g, SortedGroup(curr, frames, n, g, descending))
    ensures StrictlySorted(SortedGroup(curr, frames, n, g, descending), descending)
  {
    hide StrictlySorted, DistinctPocs, Insert;
    if n > 0 {
      SortedGroupHolds(curr, frames, n - 1, g, descending);
      var s := SortedGroup(curr, frames, n - 1, g, descending);
      if In(curr, frames, n - 1, g) {
        NewPoc(curr, frames, n - 1, g, s);
        InsertSorts(Entry(frames, n - 1), s, descending);
        HoldsNext(curr, frames, n - 1, g, s, Insert(Entry(frames, n - 1), s, descending));
      }
    } else {
      NothingSorted(descending);
    }
  }

  lemma NothingSorted(descending: bool)
    ensures StrictlySorted([], descending)
  {
  }

  lemma NewPoc(curr: int, frames: seq<VaPicture>, n: nat, g: Group, s: seq<Reference>)
    requires DistinctPocs(curr, frames) && In(curr, frames, n, g) && Holds(curr, frames, n, g, s)
    ensures forall y :: y in s ==> y.poc != Entry(frames, n).poc
  {
  }

  lemma HoldsNext(curr: int, frames: seq<VaPicture>, n: nat, g: Group, s: seq<Reference>, r: seq<Reference>)
    requires In(curr, frames, n, g) && Holds(curr, frames, n, g, s)
    requires forall y :: y in r <==> y == Entry(frames, n) || y in s
    ensures Holds(curr, frames, n + 1, g, r)
  {
  }

  lemma {:induction false} GroupSizes(curr: int, frames: seq<VaPicture>, n: nat)
    requires n <= |frames|
    ensures |SortedGroup(curr, frames, n, Before, true)| + |SortedGroup(curr, frames, n, After, false)| +
            |SortedGroup(curr, frames, n, LongTermGroup, true)| <= n
  {
    if n > 0 {
      GroupSizes(curr, frames, n - 1);
    }
  }

  // Distinct POCs are enough for a picture to have references.
  lemma ReferencesExist(p: Picture) returns (refs: References)
    requires DistinctPocs(p.currPoc, p.frames)
    ensures IsReferences(p, refs)
  {
    hide DistinctPocs, Holds, StrictlySorted, UsedIndexes, SortedGroup;
    var curr, frames, n := p.currPoc, p.frames, |p.frames|;
    SortedGroupHolds(curr, frames, n, Before, true);
    SortedGroupHolds(curr, frames, n, After, false);
    SortedGroupHolds(curr, frames, n, LongTermGroup, true);
    GroupSizes(curr, frames, n);
    var b, a, l := SortedGroup(curr, frames, n, Before, true), SortedGroup(curr, frames, n, After, false),
      SortedGroup(curr, frames, n, LongTermGroup, true);
    refs := References(b, a, l, UsedIndexes(b) + UsedIndexes(a) + UsedIndexes(l),
                       UsedIndexes(a) + UsedIndexes(b) + UsedIndexes(l));
  }
}
