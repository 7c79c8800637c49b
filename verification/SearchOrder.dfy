/**
  The order in which the compatible search tries what it tries: the originals first, then the
  tuples by the last pin they change, then by the choices made from the first pin on; and each
  tuple on the sources in their own order.
 */
module SearchOrder {
  import opened Frontiers
  import opened CompatibleResolvers

  // One stands before the other in a list.
  ghost predicate Before<T>(xs: seq<T>, x: T, y: T) { exists a, b :: 0 <= a < b < |xs| && xs[a] == x && xs[b] == y }

  // They agree up to some pin, for which one has the earlier choice.
  ghost predicate Prefers(pins: seq<Pin>, t: Tuple, u: Tuple) {
    && |t| == |pins| && |u| == |pins|
    && exists m :: 0 <= m < |pins| && t[..m] == u[..m] && Before(Choices(pins[m]), t[m], u[m])
  }

  // The one changes nothing as far back as the other does, or both change the same pin last.
  ghost predicate Sooner(pins: seq<Pin>, t: Tuple, u: Tuple) {
    exists k: nat, l: nat :: LastChange(t, pins, k) && LastChange(u, pins, l) && (k < l || (k == l && Prefers(pins, t, u)))
  }

  lemma {:induction false} RowsInOrder(prefixes: seq<Tuple>, cs: seq<V>, i: nat, j: nat)
    requires i < j < |Rows(prefixes, cs)|
    ensures var t, u := Rows(prefixes, cs)[i], Rows(prefixes, cs)[j];
      && |t| > 0 && |u| > 0
      && var p, q := t[..|t| - 1], u[..|u| - 1];
      Before(prefixes, p, q) || (p == q && p in prefixes && Before(cs, t[|t| - 1], u[|u| - 1]))
  {
    var n := |prefixes| - 1;
    var before, row := Rows(prefixes[..n], cs), Row(prefixes[n], cs);
    if j < |before| {
      RowsInOrder(prefixes[..n], cs, i, j);
      var p, q := before[i][..|before[i]| - 1], before[j][..|before[j]| - 1];
      if Before(prefixes[..n], p, q) {
        var a, b :| 0 <= a < b < n && prefixes[..n][a] == p && prefixes[..n][b] == q;
        assert prefixes[a] == p && prefixes[b] == q;
      }
    } else if i < |before| {
      RowsMember(prefixes[..n], cs, before[i]);
      assert before[i] in before;
      var a: nat :| a < n && prefixes[..n][a] == before[i][..|before[i]| - 1];
      assert prefixes[a] == prefixes[..n][a] && row[j - |before|][..|prefixes[n]|] == prefixes[n];
    } else {
      var a, b := i - |before|, j - |before|;
      assert row[a] == prefixes[n] + [cs[a]] && row[b] == prefixes[n] + [cs[b]];
      assert row[a][..|prefixes[n]|] == prefixes[n] == row[b][..|prefixes[n]|];
    }
  }

  // What comes first among the first pins comes first among all.
  lemma PrefersMore(pins: seq<Pin>, n: nat, t: Tuple, u: Tuple)
    requires n <= |pins| && |t| == |pins| && |u| == |pins| && Prefers(pins[..n], t[..n], u[..n])
    ensures Prefers(pins, t, u)
  {
    var m :| 0 <= m < n && t[..n][..m] == u[..n][..m] && Before(Choices(pins[..n][m]), t[..n][m], u[..n][m]);
    assert t[..m] == t[..n][..m] && u[..m] == u[..n][..m];
  }

  lemma BeforeIn<T>(xs: seq<T>, ys: seq<T>, from: nat, x: T, y: T)
    requires Before(xs, x, y) && from + |xs| <= |ys| && ys[from..from + |xs|] == xs
    ensures Before(ys, x, y)
  {
    var a, b :| 0 <= a < b < |xs| && xs[a] == x && xs[b] == y;
    assert ys[from + a] == x && ys[from + b] == y;
  }

  // The product is in order, and a row of candidates behind every member of it is.
  lemma {:induction false} ProductInOrder(pins: seq<Pin>, t: Tuple, u: Tuple)
    requires GoodPins(pins) && Before(Product(pins), t, u)
    ensures Prefers(pins, t, u)
    decreases |pins|, 1
  {
    if |pins| > 0 {
      var n := |pins| - 1;
      var i, j :| 0 <= i < j < |Product(pins)| && Product(pins)[i] == t && Product(pins)[j] == u;
      ProductSizes(pins, t);
      ProductSizes(pins, u);
      RowsInOrder(Product(pins[..n]), Choices(pins[n]), i, j);
      LastDecides(pins, t, u);
    }
  }

  lemma ProductSizes(pins: seq<Pin>, t: Tuple)
    requires GoodPins(pins) && t in Product(pins)
    ensures |t| == |pins|
  {
    ProductIs(pins);
  }

  lemma LastDecides(pins: seq<Pin>, t: Tuple, u: Tuple)
    requires GoodPins(pins) && |t| == |u| == |pins| > 0
    requires var n := |pins| - 1;
      Before(Product(pins[..n]), t[..n], u[..n]) || (t[..n] == u[..n] && Before(Choices(pins[n]), t[n], u[n]))
    ensures Prefers(pins, t, u)
    decreases |pins|, 0
  {
    var n := |pins| - 1;
    if Before(Product(pins[..n]), t[..n], u[..n]) {
      ProductInOrder(pins[..n], t[..n], u[..n]);
      PrefersMore(pins, n, t, u);
    }
  }

  lemma FrontInOrder(pins: seq<Pin>, k: nat, i: nat, j: nat)
    requires GoodPins(pins) && k < |pins| && i < j < |Front(pins[..k + 1])|
    ensures |Front(pins[..k + 1])[i]| == |Front(pins[..k + 1])[j]| == k + 1
    ensures Prefers(pins[..k + 1], Front(pins[..k + 1])[i], Front(pins[..k + 1])[j])
  {
    var upto := pins[..k + 1];
    var a, b := Front(upto)[i], Front(upto)[j];
    assert upto[..k] == pins[..k];
    assert a in Front(upto) && b in Front(upto);
    FrontMember(pins, k, a);
    FrontMember(pins, k, b);
    RowsInOrder(Product(pins[..k]), pins[k].candidates, i, j);
    if a[..k] == b[..k] && Before(pins[k].candidates, a[k], b[k]) {
      assert Choices(pins[k])[1..1 + |pins[k].candidates|] == pins[k].candidates;
      BeforeIn(pins[k].candidates, Choices(pins[k]), 1, a[k], b[k]);
    }
    LastDecides(upto, a, b);
  }

  lemma FrontierInOrder(pins: seq<Pin>, k: nat, t: Tuple, u: Tuple)
    requires GoodPins(pins) && k < |pins| && Before(Frontier(pins, k), t, u)
    ensures Prefers(pins, t, u)
  {
    var i, j :| 0 <= i < j < |Frontier(pins, k)| && Frontier(pins, k)[i] == t && Frontier(pins, k)[j] == u;
    FrontInOrder(pins, k, i, j);
    assert t[..k + 1] == Front(pins[..k + 1])[i] && u[..k + 1] == Front(pins[..k + 1])[j];
    PrefersMore(pins, k + 1, t, u);
  }

  lemma EarlierFrontier(pins: seq<Pin>, k: nat, t: Tuple, u: Tuple)
    requires ChangedBefore(t, pins, k) && LastChange(u, pins, k)
    ensures Sooner(pins, t, u)
  {
    var j: nat :| j < k && LastChange(t, pins, j);
  }

  lemma SameFrontier(pins: seq<Pin>, k: nat, t: Tuple, u: Tuple)
    requires LastChange(t, pins, k) && LastChange(u, pins, k) && Prefers(pins, t, u)
    ensures Sooner(pins, t, u)
  {
  }

  lemma BeforeInBoth<T>(xs: seq<T>, ys: seq<T>, x: T, y: T)
    requires Before(xs + ys, x, y)
    ensures y in xs + ys && x in xs + ys
    ensures Before(xs, x, y) || Before(ys, x, y) || (x in xs && y in ys)
    ensures Before(ys, x, y) ==> x in ys && y in ys
  {
    var a, b :| 0 <= a < b < |xs + ys| && (xs + ys)[a] == x && (xs + ys)[b] == y;
    if a >= |xs| {
      assert ys[a - |xs|] == x && ys[b - |xs|] == y;
    } else if b < |xs| {
      assert xs[a] == x && xs[b] == y;
    }
  }

  // The fewer pins a frontier reaches, the sooner it is visited.
  lemma {:induction false} VisitsInOrder(pins: seq<Pin>, n: nat, t: Tuple, u: Tuple)
    requires GoodPins(pins) && n <= |pins| && Before(Visits(pins, n), t, u)
    ensures Sooner(pins, t, u)
  {
    var before, last := Visits(pins, n - 1), Frontier(pins, n - 1);
    BeforeInBoth(before, last, t, u);
    if Before(before, t, u) {
      VisitsInOrder(pins, n - 1, t, u);
    } else {
      FrontierIs(pins, n - 1, u);
      if Before(last, t, u) {
        FrontierIs(pins, n - 1, t);
        FrontierInOrder(pins, n - 1, t, u);
        SameFrontier(pins, n - 1, t, u);
      } else {
        VisitsAre(pins, n - 1, t);
        EarlierFrontier(pins, n - 1, t, u);
      }
    }
  }

  lemma ChosenInOrder(pins: seq<Pin>, t: Tuple, u: Tuple)
    requires GoodPins(pins) && Before(Chosen(pins, |pins|), t, u)
    ensures (t == Originals(pins) && u != Originals(pins)) || Sooner(pins, t, u)
  {
    var visits := Visits(pins, |pins|);
    BeforeInBoth([Originals(pins)], visits, t, u);
    if Before(visits, t, u) {
      VisitsInOrder(pins, |pins|, t, u);
    } else {
      EveryChoiceOnce(pins);
    }
  }

  // ---------------------------------------------------------------- the plan

  ghost predicate SoonerTrial(p: Problem, a: Trial, b: Trial) {
    || (a.versions == b.versions && Before(p.sources, a.source, b.source))
    || (a.versions == Originals(p.pins) && b.versions != Originals(p.pins))
    || Sooner(p.pins, a.versions, b.versions)
  }

  lemma {:induction false} ViableInOrder(p: Problem, t: Tuple, n: nat, i: nat, j: nat)
    requires |t| == |p.pins| && n <= |p.sources| && i < j < |p.Viable(t, n)|
    ensures Before(p.sources, p.Viable(t, n)[i], p.Viable(t, n)[j])
  {
    if p.Supports(t, p.sources[n - 1]) && j == |p.Viable(t, n)| - 1 {
      var s := p.Viable(t, n)[i];
      assert s in p.Viable(t, n - 1);
      ViableIsEarlier(p, t, n - 1, s);
    } else {
      ViableInOrder(p, t, n - 1, i, j);
    }
  }

  lemma {:induction false} ViableIsEarlier(p: Problem, t: Tuple, n: nat, s: Source)
    requires |t| == |p.pins| && n <= |p.sources| && s in p.Viable(t, n)
    ensures exists i :: 0 <= i < n && p.sources[i] == s
  {
    if n > 0 && s in p.Viable(t, n - 1) {
      ViableIsEarlier(p, t, n - 1, s);
    }
  }

  lemma {:induction false} TrialsOnAt(p: Problem, t: Tuple, on: seq<Source>, n: nat, i: nat)
    requires i < n <= |on|
    ensures |p.TrialsOn(t, on, n)| == n && p.TrialsOn(t, on, n)[i] == Trial(t, on[i])
  {
    if n > 1 {
      TrialsOnAt(p, t, on, n - 1, if i < n - 1 then i else 0);
    }
  }

  lemma TrialsOfInOrder(p: Problem, t: Tuple, i: nat, j: nat)
    requires |t| == |p.pins| && i < j < |p.TrialsOf(t)|
    ensures p.TrialsOf(t)[i].versions == t == p.TrialsOf(t)[j].versions
    ensures Before(p.sources, p.TrialsOf(t)[i].source, p.TrialsOf(t)[j].source)
  {
    var viable := p.Viable(t, |p.sources|);
    if viable != [] {
      TrialsOnAt(p, t, viable, |viable|, 0);
    }
    TrialsOnAt(p, t, viable, |viable|, i);
    TrialsOnAt(p, t, viable, |viable|, j);
    ViableInOrder(p, t, |p.sources|, i, j);
  }

  // The trials of some tuples: those of an earlier one first.
  lemma {:induction false} PlanOfInOrder(p: Problem, ts: seq<Tuple>, i: nat, j: nat)
    requires AllSized(ts, |p.pins|) && i < j < |p.Plan(ts)|
    ensures var a, b := p.Plan(ts)[i], p.Plan(ts)[j];
      Before(ts, a.versions, b.versions) || (a.versions == b.versions && Before(p.sources, a.source, b.source))
  {
    var n := |ts| - 1;
    var before, last := p.Plan(ts[..n]), p.TrialsOf(ts[n]);
    if j < |before| {
      PlanOfInOrder(p, ts[..n], i, j);
      if Before(ts[..n], before[i].versions, before[j].versions) {
        BeforeIn(ts[..n], ts, 0, before[i].versions, before[j].versions);
      }
    } else {
      var viable := p.Viable(ts[n], |p.sources|);
      TrialsOnMembers(p, ts[n], viable, |viable|, last[j - |before|]);
      assert last[j - |before|] in last;
      if i < |before| {
        assert before[i] in before;
        PlanMembers(p, ts[..n], before[i]);
        var a: nat :| a < n && ts[..n][a] == before[i].versions;
        assert ts[a] == before[i].versions;
      } else {
        TrialsOfInOrder(p, ts[n], i - |before|, j - |before|);
      }
    }
  }

  lemma PlanOfFirst(p: Problem)
    requires p.Good()
    ensures p.Plan([Originals(p.pins)]) == p.TrialsOf(Originals(p.pins))
  {
    var first := [Originals(p.pins)];
    assert first[..0] == [] && p.Plan(first[..0]) == [];
  }

  lemma PlanStep(p: Problem, k: nat, before: seq<Tuple>)
    requires p.Good() && k < |p.pins| && AllSized(before, |p.pins|) && PlanTo(p, k) == p.Plan(before)
    ensures AllSized(before + Frontier(p.pins, k), |p.pins|)
    ensures PlanTo(p, k + 1) == p.Plan(before + Frontier(p.pins, k))
  {
    PlanToNext(p, k);
    FrontierShape(p, k);
    PlanConcat(p, before, Frontier(p.pins, k));
  }

  // The originals, then what the first pins' frontiers visit.
  function Chosen(pins: seq<Pin>, k: nat): seq<Tuple>
    requires k <= |pins|
  {
    [Originals(pins)] + Visits(pins, k)
  }

  lemma ChosenNext(pins: seq<Pin>, k: nat)
    requires k < |pins|
    ensures Chosen(pins, k + 1) == Chosen(pins, k) + Frontier(pins, k)
  {
  }

  lemma PlanOfChosen(p: Problem, k: nat)
    requires p.Good() && k <= |p.pins|
    ensures AllSized(Chosen(p.pins, k), |p.pins|) && PlanTo(p, k) == p.Plan(Chosen(p.pins, k))
  {
    if k == 0 {
      PlanToFirst(p);
      PlanOfFirst(p);
      assert Chosen(p.pins, 0) == [Originals(p.pins)];
    } else {
      PlanOfChosen(p, k - 1);
      ChosenNext(p.pins, k - 1);
      PlanStep(p, k - 1, Chosen(p.pins, k - 1));
    }
  }

  // The plan is in order, so together with its members it is given completely.
  lemma PlanIsInOrder(p: Problem, i: nat, j: nat)
    requires p.Good() && i < j < |PlanTo(p, |p.pins|)|
    ensures SoonerTrial(p, PlanTo(p, |p.pins|)[i], PlanTo(p, |p.pins|)[j])
  {
    var ts := Chosen(p.pins, |p.pins|);
    PlanOfChosen(p, |p.pins|);
    PlanOfInOrder(p, ts, i, j);
    var a, b := p.Plan(ts)[i].versions, p.Plan(ts)[j].versions;
    if Before(ts, a, b) {
      ChosenInOrder(p.pins, a, b);
    }
  }
}
