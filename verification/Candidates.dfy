/**
  Which versions may replace a pinned one, and in which order they are tried.
 */
module Candidates {
  import opened Versions

  predicate IsPrerelease(v: Version) { Part(v.suffix, 0) < 4 || Part(v.suffix, 3) == 0 }

  function Major(v: Version): nat { Part(v.release, 0) }

  function Minor(v: Version): nat { Part(v.release, 1) }

  // The same major version, and for major version 0 the same minor one too.
  predicate WithinBoundary(original: Version, v: Version) {
    Major(v) == Major(original) && (Major(original) == 0 ==> Minor(v) == Minor(original))
  }

  predicate Eligible(original: Version, v: Version) {
    !Same(v, original) && (IsPrerelease(original) || !IsPrerelease(v)) && WithinBoundary(original, v)
  }

  predicate SameMinor(original: Version, v: Version) { Major(v) == Major(original) && Minor(v) == Minor(original) }

  // ---------------------------------------------------------------- sorting

  predicate Ascending(vs: seq<Version>) { forall i, j :: 0 <= i < j < |vs| ==> Less(vs[i], vs[j]) }

  // Equal versions are kept once.
  function Insert(v: Version, vs: seq<Version>): seq<Version> {
    if |vs| == 0 then [v]
    else if Same(v, vs[0]) then vs
    else if Less(v, vs[0]) then [v] + vs
    else [vs[0]] + Insert(v, vs[1..])
  }

  function Sort(vs: seq<Version>): seq<Version> {
    if |vs| == 0 then [] else Insert(vs[0], Sort(vs[1..]))
  }

  function Candidates(original: Version, available: seq<Version>): (r: seq<Version>)
    ensures forall v :: v in r <==> v in available && Eligible(original, v)
  {
    if |available| == 0 then []
    else
      assert available == [available[0]] + available[1..];
      var rest := Candidates(original, available[1..]);
      if Eligible(original, available[0]) then [available[0]] + rest else rest
  }

  datatype Kind = PatchUp | PatchDown | MinorUp | MinorDown

  predicate Wanted(original: Version, v: Version, kind: Kind) {
    match kind
    case PatchUp => SameMinor(original, v) && Less(original, v)
    case PatchDown => SameMinor(original, v) && Less(v, original)
    case MinorUp => Minor(v) > Minor(original)
    case MinorDown => Minor(v) < Minor(original)
  }

  function Select(original: Version, vs: seq<Version>, kind: Kind): (r: seq<Version>)
    ensures forall v :: v in r <==> v in vs && Wanted(original, v, kind)
  {
    if |vs| == 0 then []
    else
      assert vs == [vs[0]] + vs[1..];
      var rest := Select(original, vs[1..], kind);
      if Wanted(original, vs[0], kind) then [vs[0]] + rest else rest
  }

  function Reverse(vs: seq<Version>): (r: seq<Version>)
    ensures |r| == |vs| && forall i :: 0 <= i < |vs| ==> r[i] == vs[|vs| - 1 - i]
  {
    if |vs| == 0 then [] else Reverse(vs[1..]) + [vs[0]]
  }

  function OrderedCandidates(original: Version, available: seq<Version>): seq<Version> {
    var candidates := Candidates(original, available);
    Sort(Select(original, candidates, PatchUp)) + Reverse(Sort(Select(original, candidates, PatchDown)))
    + Sort(Select(original, candidates, MinorUp)) + Reverse(Sort(Select(original, candidates, MinorDown)))
  }

  // The list holds an equal version.
  ghost predicate Has(vs: seq<Version>, v: Version) { exists w :: w in vs && Same(v, w) }

  ghost predicate SameMembers(vs: seq<Version>, ws: seq<Version>) {
    (forall v :: v in vs ==> v in ws) && (forall v {:trigger Has(vs, v)} :: v in ws ==> Has(vs, v))
  }

  lemma LessChains(u: Version, v: Version, w: Version)
    requires Less(u, v) && Less(v, w)
    ensures Less(u, w)
  {
    Chains(u, v, w);
  }

  lemma {:induction false} InsertMembers(v: Version, vs: seq<Version>)
    ensures forall w :: w in Insert(v, vs) ==> w == v || w in vs
    ensures (forall w :: w in vs ==> w in Insert(v, vs)) && Has(Insert(v, vs), v)
  {
    Reflexive(v);
    if |vs| == 0 {
      assert v in [v];
    } else {
      assert vs[0] in vs;
      assert vs == [vs[0]] + vs[1..];
      if !Same(v, vs[0]) {
        if Less(v, vs[0]) {
          assert v in [v] + vs;
        } else {
          InsertMembers(v, vs[1..]);
          var w :| w in Insert(v, vs[1..]) && Same(v, w);
          assert w in Insert(v, vs);
        }
      }
    }
  }

  // Everything in an ascending list that starts above a version is above it.
  lemma AllAbove(v: Version, vs: seq<Version>)
    requires Ascending(vs) && |vs| > 0 && Less(v, vs[0])
    ensures forall i :: 0 <= i < |vs| ==> Less(v, vs[i])
  {
    forall i | 0 < i < |vs|
      ensures Less(v, vs[i])
    {
      LessChains(v, vs[0], vs[i]);
    }
  }

  lemma {:induction false} InsertSorts(v: Version, vs: seq<Version>)
    requires Ascending(vs)
    ensures Ascending(Insert(v, vs))
  {
    if |vs| > 0 && !Same(v, vs[0]) {
      if Less(v, vs[0]) {
        AllAbove(v, vs);
      } else {
        var rest := Insert(v, vs[1..]);
        InsertSorts(v, vs[1..]);
        InsertMembers(v, vs[1..]);
        Flips(v, vs[0]);
        forall j | 0 <= j < |rest|
          ensures Less(vs[0], rest[j])
        {
          assert rest[j] in rest;
        }
      }
    }
  }

  lemma {:induction false} SortSorts(vs: seq<Version>)
    ensures Ascending(Sort(vs)) && SameMembers(Sort(vs), vs)
  {
    if |vs| > 0 {
      var rest := Sort(vs[1..]);
      SortSorts(vs[1..]);
      InsertSorts(vs[0], rest);
      InsertMembers(vs[0], rest);
      assert vs == [vs[0]] + vs[1..];
      forall v | v in vs
        ensures Has(Sort(vs), v)
      {
        if v in vs[1..] {
          assert Has(rest, v);
          var w :| w in rest && Same(v, w);
          assert w in Sort(vs);
        }
      }
    }
  }

  lemma ReverseSorts(vs: seq<Version>)
    requires Ascending(vs)
    ensures forall i, j :: 0 <= i < j < |vs| ==> Less(Reverse(vs)[j], Reverse(vs)[i])
    ensures forall v :: v in Reverse(vs) <==> v in vs
  {
    forall v | v in vs
      ensures v in Reverse(vs)
    {
      var i: nat :| i < |vs| && vs[i] == v;
      assert Reverse(vs)[|vs| - 1 - i] == v;
    }
    forall v | v in Reverse(vs)
      ensures v in vs
    {
      var i: nat :| i < |vs| && Reverse(vs)[i] == v;
    }
  }

  // ---------------------------------------------------------------- the order of the candidates

  // Higher patches first, then lower ones, then higher minor versions, then lower ones.
  function Group(original: Version, v: Version): nat {
    if Part(v.release, 1) == Part(original.release, 1) then (if Less(original, v) then 0 else 1)
    else if Part(v.release, 1) > Part(original.release, 1) then 2 else 3
  }

  // Within a group, what is closest to the original comes first.
  predicate Precedes(original: Version, v: Version, w: Version) {
    var g, h := Group(original, v), Group(original, w);
    g < h || (g == h && if g == 0 || g == 2 then Less(v, w) else Less(w, v))
  }

  function GroupOf(kind: Kind): nat {
    match kind case PatchUp => 0 case PatchDown => 1 case MinorUp => 2 case MinorDown => 3
  }

  lemma WantedIsGroup(original: Version, v: Version, kind: Kind)
    requires Eligible(original, v)
    ensures Wanted(original, v, kind) <==> Group(original, v) == GroupOf(kind)
  {
    Flips(v, original);
  }

  // One group of the list: its members, in order.
  ghost predicate IsGroup(original: Version, available: seq<Version>, g: nat, vs: seq<Version>) {
    && (forall v :: v in vs ==> v in available && Eligible(original, v) && Group(original, v) == g)
    && (forall v {:trigger Has(vs, v)} :: v in available && Eligible(original, v) && Group(original, v) == g ==> Has(vs, v))
    && (forall i, j :: 0 <= i < j < |vs| ==> Precedes(original, vs[i], vs[j]))
  }

  lemma SelectedMembers(original: Version, available: seq<Version>, kind: Kind)
    ensures var chosen := Select(original, Candidates(original, available), kind);
      forall v :: v in chosen <==> v in available && Eligible(original, v) && Group(original, v) == GroupOf(kind)
  {
    forall v | Eligible(original, v)
      ensures Wanted(original, v, kind) <==> Group(original, v) == GroupOf(kind)
    {
      WantedIsGroup(original, v, kind);
    }
  }

  lemma SortedGroup(original: Version, chosen: seq<Version>, sorted: seq<Version>, g: nat)
    requires g == 0 || g == 2
    requires Ascending(sorted) && SameMembers(sorted, chosen)
    requires forall v :: v in chosen ==> Group(original, v) == g
    ensures forall i, j :: 0 <= i < j < |sorted| ==> Precedes(original, sorted[i], sorted[j])
  {
    assert forall i :: 0 <= i < |sorted| ==> sorted[i] in sorted;
  }

  lemma AscendingGroup(original: Version, available: seq<Version>, kind: Kind)
    requires kind.PatchUp? || kind.MinorUp?
    ensures IsGroup(original, available, GroupOf(kind), Sort(Select(original, Candidates(original, available), kind)))
  {
    var chosen := Select(original, Candidates(original, available), kind);
    SelectedMembers(original, available, kind);
    SortSorts(chosen);
    SortedGroup(original, chosen, Sort(chosen), GroupOf(kind));
  }

  lemma ReversedGroup(original: Version, chosen: seq<Version>, sorted: seq<Version>, g: nat)
    requires g == 1 || g == 3
    requires Ascending(sorted) && SameMembers(sorted, chosen)
    requires forall v :: v in chosen ==> Group(original, v) == g
    ensures var r := Reverse(sorted);
      && (forall v :: v in r ==> v in chosen) && (forall v {:trigger Has(r, v)} :: v in chosen ==> Has(r, v))
      && (forall i, j :: 0 <= i < j < |r| ==> Precedes(original, r[i], r[j]))
  {
    ReverseSorts(sorted);
    var r := Reverse(sorted);
    assert forall i :: 0 <= i < |r| ==> r[i] in r;
    forall v | v in chosen
      ensures Has(r, v)
    {
      assert Has(sorted, v);
      var w :| w in sorted && Same(v, w);
      assert w in r;
    }
  }

  lemma DescendingGroup(original: Version, available: seq<Version>, kind: Kind)
    requires kind.PatchDown? || kind.MinorDown?
    ensures IsGroup(original, available, GroupOf(kind), Reverse(Sort(Select(original, Candidates(original, available), kind))))
  {
    var chosen := Select(original, Candidates(original, available), kind);
    SelectedMembers(original, available, kind);
    SortSorts(chosen);
    ReversedGroup(original, chosen, Sort(chosen), GroupOf(kind));
  }

  ghost predicate InOrder(original: Version, vs: seq<Version>) {
    forall i, j :: 0 <= i < j < |vs| ==> Precedes(original, vs[i], vs[j])
  }

  lemma JoinGroups(original: Version, a: seq<Version>, b: seq<Version>, g: nat)
    requires InOrder(original, a) && InOrder(original, b)
    requires (forall v :: v in a ==> Group(original, v) < g) && (forall v :: v in b ==> Group(original, v) == g)
    ensures InOrder(original, a + b)
  {
    forall i, j | 0 <= i < j < |a + b|
      ensures Precedes(original, (a + b)[i], (a + b)[j])
    {
      if i < |a| {
        assert (a + b)[i] in a;
        if j >= |a| {
          assert (a + b)[j] in b;
        }
      }
    }
  }

  lemma JoinFour(original: Version, available: seq<Version>, a: seq<Version>, b: seq<Version>, c: seq<Version>, d: seq<Version>)
    requires IsGroup(original, available, 0, a) && IsGroup(original, available, 1, b)
    requires IsGroup(original, available, 2, c) && IsGroup(original, available, 3, d)
    ensures InOrder(original, a + b + c + d)
    ensures forall v :: v in a + b + c + d ==> v in available && Eligible(original, v)
    ensures forall v :: v in available && Eligible(original, v) ==> Has(a + b + c + d, v)
  {
    JoinGroups(original, a, b, 1);
    JoinGroups(original, a + b, c, 2);
    JoinGroups(original, a + b + c, d, 3);
    forall v | v in available && Eligible(original, v)
      ensures Has(a + b + c + d, v)
    {
      var g := Group(original, v);
      var part := if g == 0 then a else if g == 1 then b else if g == 2 then c else d;
      assert Has(part, v);
      var w :| w in part && Same(v, w);
      assert w in a + b + c + d;
    }
  }

  // The list is made of eligible versions, holds every eligible one, and each strictly precedes
  // those behind it, so that none occurs twice.
  lemma CandidatesAreOrdered(original: Version, available: seq<Version>)
    ensures var r := OrderedCandidates(original, available);
      && (forall v :: v in r ==> v in available && Eligible(original, v))
      && (forall v :: v in available && Eligible(original, v) ==> Has(r, v))
      && InOrder(original, r)
  {
    var candidates := Candidates(original, available);
    AscendingGroup(original, available, PatchUp);
    DescendingGroup(original, available, PatchDown);
    AscendingGroup(original, available, MinorUp);
    DescendingGroup(original, available, MinorDown);
    JoinFour(original, available, Sort(Select(original, candidates, PatchUp)),
             Reverse(Sort(Select(original, candidates, PatchDown))), Sort(Select(original, candidates, MinorUp)),
             Reverse(Sort(Select(original, candidates, MinorDown))));
  }

  // What is available is left out exactly if it is the original itself, leaves its major version or,
  // within major version 0, its minor one, or is a pre- or development release of a stable pin.
  lemma LeftOutIff(original: Version, available: seq<Version>, v: Version)
    requires v in available
    ensures Has(OrderedCandidates(original, available), v) <==>
      && !Same(v, original) && Part(v.release, 0) == Part(original.release, 0)
      && (Part(original.release, 0) == 0 ==> Part(v.release, 1) == Part(original.release, 1))
      && (Part(original.suffix, 0) >= 4 && Part(original.suffix, 3) >= 1 ==> Part(v.suffix, 0) >= 4 && Part(v.suffix, 3) >= 1)
  {
    ListedIff(original, available, v);
  }

  lemma ListedIff(original: Version, available: seq<Version>, v: Version)
    requires v in available
    ensures Has(OrderedCandidates(original, available), v) <==> Eligible(original, v)
  {
    CandidatesAreOrdered(original, available);
    var r := OrderedCandidates(original, available);
    if Has(r, v) {
      var w :| w in r && Same(v, w);
      SameIsEligible(original, w, v);
    }
  }

  // Equal versions are eligible together.
  lemma SameIsEligible(original: Version, v: Version, w: Version)
    requires Same(w, v) && Eligible(original, v)
    ensures Eligible(original, w)
  {
    SameRelease(w, v);
    SameSuffix(w, v);
    Flips(w, v);
    if Same(w, original) {
      Chains(v, w, original);
    }
  }

  lemma SameSuffix(v: Version, w: Version)
    requires Same(v, w)
    ensures Part(v.suffix, 0) == Part(w.suffix, 0) && Part(v.suffix, 3) == Part(w.suffix, 3)
  {
    EqualParts(v.suffix, w.suffix, 0);
    EqualParts(v.suffix, w.suffix, 3);
  }

  lemma {:induction false} EqualParts(a: seq<nat>, b: seq<nat>, i: nat)
    requires Compare(a, b).Eq?
    ensures Part(a, i) == Part(b, i)
    decreases i
  {
    if i > 0 && |a| + |b| > 0 {
      EqualParts(Tail(a), Tail(b), i - 1);
    }
  }

  // A version precedes no equal one.
  lemma PrecedesIsStrict(original: Version, v: Version, w: Version)
    requires Eligible(original, v) && Eligible(original, w) && Precedes(original, v, w)
    ensures !Same(v, w) && !Precedes(original, w, v)
  {
    Flips(v, w);
    Flips(w, v);
    if Same(v, w) {
      SameRelease(v, w);
      Flips(v, original);
      Flips(w, original);
      if Less(original, v) {
        Chains(original, v, w);
      } else {
        Chains(w, v, original);
        Flips(original, w);
      }
    }
  }

  lemma SameRelease(v: Version, w: Version)
    requires Same(v, w)
    ensures Minor(v) == Minor(w) && Major(v) == Major(w)
  {
    assert Compare(v.release, w.release).Eq?;
    assert Compare(Tail(v.release), Tail(w.release)).Eq?;
    assert Head(Tail(v.release)) == Minor(v) && Head(Tail(w.release)) == Minor(w);
  }
}
