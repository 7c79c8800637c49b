/**
  Reading a requirements file line by line: one item for every name and marker, merged as the
  lines come, and a conflict reported at the first line that makes one unavoidable.
 */
module Requirements {
  import opened Options
  import opened Versions
  import opened Constraints
  import opened LineMerging

  // ---------------------------------------------------------------- merging specifiers

  function OperatorRank(op: Operator): nat {
    match op case Exact => 0 case Compatible => 1 case AtLeast => 2 case UpTo => 3
  }

  // By operator, then version, then text.
  function CompareSpecifiers(a: Constraint, b: Constraint): Order {
    Then(CompareNat(OperatorRank(a.op), OperatorRank(b.op)), Then(CompareVersions(a.version, b.version), CompareNat(a.text, b.text)))
  }

  predicate Before(a: Constraint, b: Constraint) { CompareSpecifiers(a, b).Lt? }

  // A text spells one version.
  ghost predicate Spelled(cs: seq<Constraint>) {
    forall c, d :: c in cs && d in cs && c.op == d.op && c.text == d.text ==> c == d
  }

  predicate Sorted(cs: seq<Constraint>) { forall i, j :: 0 <= i < j < |cs| ==> Before(cs[i], cs[j]) }

  function Insert(c: Constraint, cs: seq<Constraint>): (r: seq<Constraint>)
    ensures forall d :: d in r <==> d == c || d in cs
  {
    if |cs| == 0 then [c]
    else if c == cs[0] then cs
    else if Before(c, cs[0]) then [c] + cs
    else
      assert cs == [cs[0]] + cs[1..];
      [cs[0]] + Insert(c, cs[1..])
  }

  // Every specifier once, in order.
  function Deduplicated(cs: seq<Constraint>): (r: seq<Constraint>)
    ensures forall d :: d in r <==> d in cs
  {
    if |cs| == 0 then []
    else
      assert cs == cs[..|cs| - 1] + [cs[|cs| - 1]];
      Insert(cs[|cs| - 1], Deduplicated(cs[..|cs| - 1]))
  }

  lemma SpecifiersChain(a: Constraint, b: Constraint, c: Constraint)
    requires Before(a, b) && Before(b, c)
    ensures Before(a, c)
  {
    if a.op == b.op && b.op == c.op {
      Chains(a.version, b.version, c.version);
    }
  }

  lemma SpecifiersCompare(a: Constraint, b: Constraint)
    requires !Before(a, b) && (a.op == b.op && a.text == b.text ==> a == b)
    ensures a == b || Before(b, a)
  {
    Flips(a.version, b.version);
  }

  lemma {:induction false} InsertKeepsSorted(c: Constraint, cs: seq<Constraint>)
    requires Sorted(cs) && Spelled([c] + cs)
    ensures Sorted(Insert(c, cs))
  {
    if |cs| > 0 && c != cs[0] {
      assert c in [c] + cs && cs[0] in [c] + cs;
      var tail := cs[1..];
      if Before(c, cs[0]) {
        forall i | 0 < i < |cs|
          ensures Before(c, cs[i])
        {
          SpecifiersChain(c, cs[0], cs[i]);
        }
      } else {
        assert forall d :: d in [c] + tail ==> d in [c] + cs;
        InsertKeepsSorted(c, tail);
        SpecifiersCompare(c, cs[0]);
        var rest := Insert(c, tail);
        forall j | 0 <= j < |rest|
          ensures Before(cs[0], rest[j])
        {
          assert rest[j] in rest;
          if rest[j] != c {
            var k: nat :| k < |tail| && tail[k] == rest[j];
            assert cs[k + 1] == rest[j];
          }
        }
      }
    }
  }

  lemma {:induction false} DeduplicatedIsSorted(cs: seq<Constraint>)
    requires Spelled(cs)
    ensures Sorted(Deduplicated(cs))
  {
    if |cs| > 0 {
      var front := cs[..|cs| - 1];
      assert cs == front + [cs[|cs| - 1]];
      assert forall d :: d in front ==> d in cs;
      DeduplicatedIsSorted(front);
      assert forall d :: d in [cs[|cs| - 1]] + Deduplicated(front) ==> d in cs;
      InsertKeepsSorted(cs[|cs| - 1], Deduplicated(front));
    }
  }

  lemma Irreflexive(c: Constraint)
    ensures !Before(c, c)
  {
    Reflexive(c.version);
  }

  lemma Asymmetric(a: Constraint, b: Constraint)
    requires Before(a, b)
    ensures !Before(b, a)
  {
    Flips(a.version, b.version);
  }

  lemma HasElement(cs: seq<Constraint>)
    requires cs != []
    ensures exists c :: c in cs
  {
    assert cs[0] in cs;
  }

  // Two sorted lists of the same specifiers are one list.
  lemma {:induction false} SortedIsUnique(a: seq<Constraint>, b: seq<Constraint>)
    requires Sorted(a) && Sorted(b) && forall d :: d in a <==> d in b
    ensures a == b
  {
    if |a| == 0 {
      if b != [] {
        HasElement(b);
      }
    } else {
      assert a[0] in a && a[0] in b;
      assert b[0] in b && b[0] in a;
      var i: nat :| i < |b| && b[i] == a[0];
      var j: nat :| j < |a| && a[j] == b[0];
      if i > 0 && j > 0 {
        assert Before(b[0], a[0]) && Before(a[0], b[0]);
        Asymmetric(a[0], b[0]);
      }
      assert a[0] == b[0];
      Irreflexive(a[0]);
      forall d
        ensures d in a[1..] <==> d in b[1..]
      {
        assert d in a <==> d == a[0] || d in a[1..];
        assert d in b <==> d == b[0] || d in b[1..];
        assert a[0] !in a[1..] && b[0] !in b[1..];
      }
      SortedIsUnique(a[1..], b[1..]);
    }
  }

  // The merged text of an item does not depend on the order of the lines.
  lemma MergeIgnoresOrder(a: seq<Constraint>, b: seq<Constraint>)
    requires Spelled(a) && Spelled(b) && forall d :: d in a <==> d in b
    ensures Deduplicated(a) == Deduplicated(b)
  {
    DeduplicatedIsSorted(a);
    DeduplicatedIsSorted(b);
    SortedIsUnique(Deduplicated(a), Deduplicated(b));
  }

  // ---------------------------------------------------------------- the file

  // Some version satisfies all the demands.
  ghost predicate Met(demands: set<Constraint>) { exists v :: MeetsAll(v, demands) }

  predicate MeetsAll(v: Version, demands: set<Constraint>) { forall c :: c in demands ==> Satisfies(v, c) }

  ghost const MET: set<Constraint> -> bool := (demands: set<Constraint>) => Met(demands)

  lemma MetIsSatisfiable(cs: seq<Constraint>)
    ensures Met(Elements(cs)) <==> Satisfiable(cs)
  {
    if Met(Elements(cs)) {
      var v :| MeetsAll(v, Elements(cs));
      assert forall c :: c in cs ==> c in Elements(cs);
      assert SatisfiesAll(v, cs);
    }
    if Satisfiable(cs) {
      var v :| SatisfiesAll(v, cs);
      assert MeetsAll(v, Elements(cs));
    }
  }

  lemma MetIsMonotone()
    ensures Monotone(MET)
  {
    forall a, b | a <= b && MET(b)
      ensures MET(a)
    {
      var v :| MeetsAll(v, b);
      assert MeetsAll(v, a);
    }
  }

  // Accepts exactly the files in which, for every name and marker, some version satisfies the
  // constraints of all lines together; yields one item for each, in the order of first appearance,
  // constrained exactly by what its lines say; and otherwise points at the first line at fault.
  method ParseRequirements(lines: Lines<Constraint>) returns (result: Result<Constraint>)
    ensures result.Items? <==> Consistent(lines, |lines|, MET)
    ensures result.Items? ==> MergedAll(lines, |lines|, result.items)
    ensures result.Rejected? ==> FirstConflict(lines, result.failure, MET)
  {
    MetIsMonotone();
    forall cs: seq<Constraint>
      ensures Conflict(cs) <==> !MET(Elements(cs))
    {
      ConflictIffUnsatisfiable(cs);
      MetIsSatisfiable(cs);
    }
    forall cs: seq<Constraint>
      ensures Elements(Deduplicated(cs)) == Elements(cs)
    {
    }
    result := ReadLines(lines, Conflict, Deduplicated, MET);
  }

  // An item admits exactly the versions that all lines with its key admit.
  lemma ItemAdmitsWhatItsLinesAdmit(lines: Lines<Constraint>, n: nat, item: Item<Constraint>, v: Version)
    requires n <= |lines| && Merged(lines, n, item)
    ensures SatisfiesAll(v, item.constraints)
      <==> forall i :: 0 <= i < n && Mentions(lines[i], item.key) ==> SatisfiesAll(v, lines[i].value.constraints)
  {
    DemandsAreTheLines(lines, n, item.key, v);
    assert forall c :: c in item.constraints <==> c in Elements(item.constraints);
  }

  lemma {:induction false} DemandsAreTheLines(lines: Lines<Constraint>, n: nat, key: Key, v: Version)
    requires n <= |lines|
    ensures MeetsAll(v, Demands(lines, n, key))
      <==> forall i :: 0 <= i < n && Mentions(lines[i], key) ==> SatisfiesAll(v, lines[i].value.constraints)
  {
    if n > 0 {
      DemandsAreTheLines(lines, n - 1, key, v);
      if Mentions(lines[n - 1], key) {
        var own := lines[n - 1].value.constraints;
        assert forall c :: c in Elements(own) <==> c in own;
      }
    }
  }
}
