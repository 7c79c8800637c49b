/**
  The tuples of versions the compatible search visits, frontier by frontier: for the pin at each
  index, every choice for the pins before it, every candidate for it, the originals behind it.
 */
module Frontiers {
  // A version, as far as the search can tell it from others.
  type V = nat

  type Tuple = seq<V>

  // The original version and the candidates in the order they are tried.
  datatype Pin = Pin(original: V, candidates: seq<V>)

  function Choices(pin: Pin): seq<V> { [pin.original] + pin.candidates }

  function Originals(pins: seq<Pin>): Tuple { seq(|pins|, (i: nat) requires i < |pins| => pins[i].original) }

  // A candidate is never the original, and none is offered twice.
  ghost predicate GoodPin(pin: Pin) {
    pin.original !in pin.candidates && forall i, j :: 0 <= i < j < |pin.candidates| ==> pin.candidates[i] != pin.candidates[j]
  }

  ghost predicate GoodPins(pins: seq<Pin>) { forall i :: 0 <= i < |pins| ==> GoodPin(pins[i]) }

  // ---------------------------------------------------------------- enumerations

  // prefix + [c] for the candidates in order.
  function Row(prefix: Tuple, cs: seq<V>): seq<Tuple> {
    seq(|cs|, (i: nat) requires i < |cs| => prefix + [cs[i]])
  }

  function Rows(prefixes: seq<Tuple>, cs: seq<V>): seq<Tuple> {
    if |prefixes| == 0 then [] else Rows(prefixes[..|prefixes| - 1], cs) + Row(prefixes[|prefixes| - 1], cs)
  }

  // The cartesian product, the last index running fastest.
  function Product(pins: seq<Pin>): seq<Tuple> {
    if |pins| == 0 then [[]] else Rows(Product(pins[..|pins| - 1]), Choices(pins[|pins| - 1]))
  }

  function Extend(ts: seq<Tuple>, tail: Tuple): seq<Tuple> {
    seq(|ts|, (i: nat) requires i < |ts| => ts[i] + tail)
  }

  // The frontier at the last of some pins, as tuples for those pins alone.
  function Front(pins: seq<Pin>): seq<Tuple>
    requires |pins| > 0
  {
    Rows(Product(pins[..|pins| - 1]), pins[|pins| - 1].candidates)
  }

  // ... and with the originals behind them.
  function Frontier(pins: seq<Pin>, k: nat): seq<Tuple>
    requires k < |pins|
  {
    Extend(Front(pins[..k + 1]), Originals(pins)[k + 1..])
  }

  // All frontiers over the first k pins.
  function Visits(pins: seq<Pin>, k: nat): seq<Tuple>
    requires k <= |pins|
  {
    if k == 0 then []
    else Visits(pins, k - 1) + Frontier(pins, k - 1)
  }

  function Combinations(pins: seq<Pin>): nat {
    if |pins| == 0 then 1 else Combinations(pins[..|pins| - 1]) * (|pins[|pins| - 1].candidates| + 1)
  }

  ghost predicate Distinct(ts: seq<Tuple>) { forall i, j :: 0 <= i < j < |ts| ==> ts[i] != ts[j] }

  // A tuple of choices, one for every pin.
  ghost predicate IsChoice(t: Tuple, pins: seq<Pin>) {
    |t| == |pins| && forall i :: 0 <= i < |t| ==> t[i] in Choices(pins[i])
  }

  // ---------------------------------------------------------------- rows

  lemma {:induction false} RowsLength(prefixes: seq<Tuple>, cs: seq<V>)
    ensures |Rows(prefixes, cs)| == |prefixes| * |cs|
  {
    if |prefixes| > 0 {
      RowsLength(prefixes[..|prefixes| - 1], cs);
    }
  }

  lemma {:induction false} RowsMember(prefixes: seq<Tuple>, cs: seq<V>, t: Tuple)
    ensures t in Rows(prefixes, cs) <==> |t| > 0 && t[..|t| - 1] in prefixes && t[|t| - 1] in cs
  {
    if |prefixes| > 0 {
      var n := |prefixes| - 1;
      RowsMember(prefixes[..n], cs, t);
      assert prefixes == prefixes[..n] + [prefixes[n]];
      RowMember(prefixes[n], cs, t);
    }
  }

  lemma RowMember(prefix: Tuple, cs: seq<V>, t: Tuple)
    ensures t in Row(prefix, cs) <==> |t| > 0 && t[..|t| - 1] == prefix && t[|t| - 1] in cs
  {
    if t in Row(prefix, cs) {
      var i: nat :| i < |cs| && Row(prefix, cs)[i] == t;
    }
    if |t| > 0 && t[..|t| - 1] == prefix && t[|t| - 1] in cs {
      var i: nat :| i < |cs| && cs[i] == t[|t| - 1];
      assert Row(prefix, cs)[i] == t;
    }
  }

  lemma {:induction false} RowsDistinct(prefixes: seq<Tuple>, cs: seq<V>)
    requires Distinct(prefixes) && forall i, j :: 0 <= i < j < |cs| ==> cs[i] != cs[j]
    ensures Distinct(Rows(prefixes, cs))
  {
    if |prefixes| > 0 {
      var n := |prefixes| - 1;
      var before, row := Rows(prefixes[..n], cs), Row(prefixes[n], cs);
      RowsDistinct(prefixes[..n], cs);
      var all: seq<Tuple> := before + row;
      forall i, j | 0 <= i < j < |all|
        ensures all[i] != all[j]
      {
        if i >= |before| {
          assert row[i - |before|][|prefixes[n]|] == cs[i - |before|];
          assert row[j - |before|][|prefixes[n]|] == cs[j - |before|];
        } else if j >= |before| {
          RowsMember(prefixes[..n], cs, before[i]);
          RowMember(prefixes[n], cs, row[j - |before|]);
          assert row[j - |before|] in row && before[i] in before;
          assert prefixes[n] !in prefixes[..n];
        }
      }
    }
  }

  lemma ChoicesDistinct(pin: Pin)
    requires GoodPin(pin)
    ensures forall i, j :: 0 <= i < j < |Choices(pin)| ==> Choices(pin)[i] != Choices(pin)[j]
  {
    assert forall i :: 0 <= i < |pin.candidates| ==> pin.candidates[i] in pin.candidates;
  }

  // ---------------------------------------------------------------- the product

  lemma {:induction false} ProductIs(pins: seq<Pin>)
    requires GoodPins(pins)
    ensures Distinct(Product(pins)) && |Product(pins)| == Combinations(pins)
    ensures forall t :: t in Product(pins) <==> IsChoice(t, pins)
  {
    if |pins| > 0 {
      var n := |pins| - 1;
      var front := pins[..n];
      ProductIs(front);
      ChoicesDistinct(pins[n]);
      RowsDistinct(Product(front), Choices(pins[n]));
      RowsLength(Product(front), Choices(pins[n]));
      forall t
        ensures t in Product(pins) <==> IsChoice(t, pins)
      {
        RowsMember(Product(front), Choices(pins[n]), t);
        if |t| > 0 {
          assert IsChoice(t, pins) <==> IsChoice(t[..|t| - 1], front) && t[|t| - 1] in Choices(pins[n]) by {
            ChoiceSplits(t, pins);
          }
        }
      }
    }
  }

  lemma ChoiceSplits(t: Tuple, pins: seq<Pin>)
    requires |t| > 0 && |pins| > 0
    ensures IsChoice(t, pins) <==> IsChoice(t[..|t| - 1], pins[..|pins| - 1]) && t[|t| - 1] in Choices(pins[|pins| - 1])
  {
    var u, front := t[..|t| - 1], pins[..|pins| - 1];
    if IsChoice(u, front) && t[|t| - 1] in Choices(pins[|pins| - 1]) {
      forall i | 0 <= i < |t|
        ensures t[i] in Choices(pins[i])
      {
        if i < |u| {
          assert u[i] == t[i] && front[i] == pins[i];
        }
      }
    }
  }

  // ---------------------------------------------------------------- exactly once

  // The last index at which a tuple departs from the originals.
  ghost predicate LastChange(t: Tuple, pins: seq<Pin>, k: nat) {
    |t| == |pins| && k < |pins| && t[k] != pins[k].original && forall i :: k < i < |pins| ==> t[i] == pins[i].original
  }

  lemma ExtendMember(ts: seq<Tuple>, tail: Tuple, t: Tuple, n: nat)
    requires forall u :: u in ts ==> |u| == n
    ensures t in Extend(ts, tail) <==> n <= |t| && t[..n] in ts && t[n..] == tail
  {
    if t in Extend(ts, tail) {
      var i: nat :| i < |ts| && Extend(ts, tail)[i] == t;
      assert ts[i] in ts;
      assert t[..n] == ts[i] && t[n..] == tail;
    }
    if n <= |t| && t[..n] in ts && t[n..] == tail {
      var i: nat :| i < |ts| && ts[i] == t[..n];
      assert t == t[..n] + t[n..];
      assert Extend(ts, tail)[i] == t;
    }
  }

  lemma ChoiceAt(t: Tuple, pins: seq<Pin>, k: nat)
    requires GoodPins(pins) && k < |pins| && |t| == |pins|
    ensures IsChoice(t[..k + 1][..k], pins[..k]) && t[k] in pins[k].candidates && t[k + 1..] == Originals(pins)[k + 1..]
      <==> IsChoice(t, pins) && LastChange(t, pins, k)
  {
    var u := t[..k + 1][..k];
    assert forall i :: 0 <= i < k ==> u[i] == t[i];
    if IsChoice(u, pins[..k]) && t[k] in pins[k].candidates && t[k + 1..] == Originals(pins)[k + 1..] {
      forall i | k < i < |pins|
        ensures t[i] == pins[i].original
      {
        assert t[k + 1..][i - k - 1] == Originals(pins)[k + 1..][i - k - 1];
      }
      assert forall i :: 0 <= i < k ==> u[i] in Choices(pins[..k][i]);
    }
    if IsChoice(t, pins) && LastChange(t, pins, k) {
      assert t[k] in Choices(pins[k]);
      assert t[k + 1..] == Originals(pins)[k + 1..];
    }
  }

  // The frontier at k: the choices whose last change is there.
  lemma FrontierIs(pins: seq<Pin>, k: nat, t: Tuple)
    requires GoodPins(pins) && k < |pins|
    ensures t in Frontier(pins, k) <==> IsChoice(t, pins) && LastChange(t, pins, k)
  {
    var front := Front(pins[..k + 1]);
    forall u | u in front
      ensures |u| == k + 1
    {
      FrontMember(pins, k, u);
    }
    ExtendMember(front, Originals(pins)[k + 1..], t, k + 1);
    if |t| == |pins| {
      FrontMember(pins, k, t[..k + 1]);
      ChoiceAt(t, pins, k);
    }
  }

  lemma FrontMember(pins: seq<Pin>, k: nat, u: Tuple)
    requires GoodPins(pins) && k < |pins|
    ensures u in Front(pins[..k + 1]) <==> |u| == k + 1 && IsChoice(u[..k], pins[..k]) && u[k] in pins[k].candidates
  {
    assert pins[..k + 1][..k] == pins[..k];
    ProductIs(pins[..k]);
    RowsMember(Product(pins[..k]), pins[k].candidates, u);
  }

  lemma AppendIsInjective(a: Tuple, b: Tuple, tail: Tuple)
    requires |a| == |b|
    ensures a + tail == b + tail ==> a == b
  {
    if a + tail == b + tail {
      assert a == (a + tail)[..|a|] && b == (b + tail)[..|b|];
    }
  }

  lemma FrontierDistinct(pins: seq<Pin>, k: nat)
    requires GoodPins(pins) && k < |pins|
    ensures Distinct(Frontier(pins, k)) && |Frontier(pins, k)| == Combinations(pins[..k]) * |pins[k].candidates|
  {
    var upto, tail := pins[..k + 1], Originals(pins)[k + 1..];
    assert upto[..k] == pins[..k];
    var front := Front(upto);
    ProductIs(pins[..k]);
    RowsDistinct(Product(pins[..k]), pins[k].candidates);
    RowsLength(Product(pins[..k]), pins[k].candidates);
    forall i, j | 0 <= i < j < |front|
      ensures front[i] + tail != front[j] + tail
    {
      assert front[i] in front && front[j] in front;
      FrontMember(pins, k, front[i]);
      FrontMember(pins, k, front[j]);
      AppendIsInjective(front[i], front[j], tail);
    }
  }

  // The last change lies before some index.
  ghost predicate ChangedBefore(t: Tuple, pins: seq<Pin>, k: nat) { exists j: nat :: j < k && LastChange(t, pins, j) }

  lemma ChangedBeforeStep(t: Tuple, pins: seq<Pin>, k: nat)
    ensures ChangedBefore(t, pins, k + 1) <==> ChangedBefore(t, pins, k) || LastChange(t, pins, k)
  {
  }

  lemma {:induction false} VisitsAre(pins: seq<Pin>, k: nat, t: Tuple)
    requires GoodPins(pins) && k <= |pins|
    ensures t in Visits(pins, k) <==> IsChoice(t, pins) && ChangedBefore(t, pins, k)
  {
    if k > 0 {
      VisitsAre(pins, k - 1, t);
      FrontierIs(pins, k - 1, t);
      ChangedBeforeStep(t, pins, k - 1);
      InEither(Visits(pins, k - 1), Frontier(pins, k - 1), t);
    }
  }

  lemma InEither(a: seq<Tuple>, b: seq<Tuple>, t: Tuple)
    ensures t in a + b <==> t in a || t in b
  {
  }

  lemma FrontierIsNew(pins: seq<Pin>, k: nat)
    requires GoodPins(pins) && k < |pins|
    ensures forall t :: t in Visits(pins, k) ==> t !in Frontier(pins, k)
  {
    forall t | t in Visits(pins, k)
      ensures t !in Frontier(pins, k)
    {
      VisitsAre(pins, k, t);
      FrontierIs(pins, k, t);
    }
  }

  lemma DistinctJoin(a: seq<Tuple>, b: seq<Tuple>)
    requires Distinct(a) && Distinct(b) && forall t :: t in a ==> t !in b
    ensures Distinct(a + b)
  {
    var all: seq<Tuple> := a + b;
    forall i, j | 0 <= i < j < |all|
      ensures all[i] != all[j]
    {
      if i < |a| && j >= |a| {
        assert all[i] in a && all[j] in b;
      }
    }
  }

  lemma CombinationsStep(pins: seq<Pin>, k: nat)
    requires k < |pins|
    ensures Combinations(pins[..k + 1]) == Combinations(pins[..k]) * (|pins[k].candidates| + 1)
    ensures Combinations(pins[..k + 1]) == Combinations(pins[..k]) + Combinations(pins[..k]) * |pins[k].candidates|
  {
    assert pins[..k + 1][..k] == pins[..k];
  }

  lemma {:induction false} VisitsDistinct(pins: seq<Pin>, k: nat)
    requires GoodPins(pins) && k <= |pins|
    ensures Distinct(Visits(pins, k)) && |Visits(pins, k)| == Combinations(pins[..k]) - 1
  {
    if k > 0 {
      VisitsDistinct(pins, k - 1);
      FrontierDistinct(pins, k - 1);
      FrontierIsNew(pins, k - 1);
      DistinctJoin(Visits(pins, k - 1), Frontier(pins, k - 1));
      CombinationsStep(pins, k - 1);
    }
  }

  lemma {:induction false} HasLastChange(t: Tuple, pins: seq<Pin>, n: nat)
    requires |t| == |pins| && n <= |pins| && forall i :: n <= i < |pins| ==> t[i] == pins[i].original
    ensures t == Originals(pins) || exists j: nat :: j < |pins| && LastChange(t, pins, j)
  {
    if n == 0 {
      assert t == Originals(pins);
    } else if t[n - 1] != pins[n - 1].original {
      assert LastChange(t, pins, n - 1);
    } else {
      HasLastChange(t, pins, n - 1);
    }
  }

  // The frontiers together visit every choice of versions except that of the originals alone,
  // and each exactly once.
  lemma EveryChoiceOnce(pins: seq<Pin>)
    requires GoodPins(pins)
    ensures var visits := Visits(pins, |pins|);
      && (forall t :: t in visits <==> IsChoice(t, pins) && t != Originals(pins))
      && Distinct(visits) && |visits| == Combinations(pins) - 1
  {
    VisitsDistinct(pins, |pins|);
    assert pins[..|pins|] == pins;
    forall t
      ensures t in Visits(pins, |pins|) <==> IsChoice(t, pins) && t != Originals(pins)
    {
      VisitsAre(pins, |pins|, t);
      if IsChoice(t, pins) && t != Originals(pins) {
        HasLastChange(t, pins, |pins|);
      }
    }
  }

  // Without a candidate nothing is visited beyond the originals.
  lemma {:induction false} CombinationsWithin(pins: seq<Pin>)
    ensures Combinations(pins) >= 1
    ensures (forall i :: 0 <= i < |pins| ==> pins[i].candidates == []) <==> Combinations(pins) == 1
  {
    if |pins| > 0 {
      var n := |pins| - 1;
      CombinationsWithin(pins[..n]);
      var a, b := Combinations(pins[..n]), |pins[n].candidates| + 1;
      assert a * b >= a && a * b >= b by { Multiply(a, b); }
      if Combinations(pins) == 1 {
        forall i | 0 <= i < |pins|
          ensures pins[i].candidates == []
        {
          assert i < n ==> pins[..n][i] == pins[i];
        }
      }
    }
  }

  lemma Multiply(a: nat, b: nat)
    requires a >= 1 && b >= 1
    ensures a * b >= a && a * b >= b
  {
    assert a * b == a + a * (b - 1);
    assert a * b == b + (a - 1) * b;
  }
}
