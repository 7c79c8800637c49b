/**
  Whether any version at all satisfies a set of constraints: the quick test tries one version, or
  the pinned ones, and is right.
 */
module Constraints {
  import opened Versions

  datatype Operator = Exact | Compatible | AtLeast | UpTo

  // The text stands for the version's spelling; it is its place in the order of all texts.
  datatype Specifier = Specifier(op: Operator, version: Version, text: nat)

  // What the grammar of specifiers guarantees: only an exact pin has a local label, and the
  // compatible-release operator is followed by two numbers at least.
  predicate WellFormed(c: Specifier) {
    && (!c.op.Exact? ==> c.version.local == 0)
    && (c.op.Compatible? ==> |c.version.release| >= 2)
  }

  type Constraint = c: Specifier | WellFormed(c) witness Specifier(AtLeast, Version(0, [], [], 0), 0)

  function AllButLast(s: seq<nat>): seq<nat> { if |s| == 0 then s else s[..|s| - 1] }

  // The operators of PEP 440, sections "Compatible release", "Version matching" and "Inclusive
  // ordered comparison".
  predicate Satisfies(v: Version, c: Specifier) {
    match c.op
    case Exact => Same(if c.version.local == 0 then v.Public() else v, c.version)
    case AtLeast => AtMost(c.version, v.Public())
    case UpTo => AtMost(v.Public(), c.version)
    case Compatible =>
      && AtMost(c.version, v.Public())
      && v.epoch == c.version.epoch && Begins(AllButLast(c.version.release), v.release)
  }

  predicate SatisfiesAll(v: Version, cs: seq<Constraint>) { forall c :: c in cs ==> Satisfies(v, c) }

  ghost predicate Satisfiable(cs: seq<Constraint>) { exists v :: SatisfiesAll(v, cs) }

  // ---------------------------------------------------------------- what the operators admit

  // The releases that begin as demanded are those below this one.
  function NextRelease(release: seq<nat>): seq<nat>
    requires |release| >= 2
  {
    var n := |release| - 2;
    release[..n] + [release[n] + 1]
  }

  lemma {:induction false} BeginsBelow(base: seq<nat>, release: seq<nat>)
    requires |base| >= 2 && !Compare(base, release).Gt?
    ensures Begins(AllButLast(base), release) <==> Compare(release, NextRelease(base)).Lt?
    decreases |base|
  {
    var next := NextRelease(base);
    if |base| == 2 {
      assert AllButLast(base) == [base[0]] && AllButLast(base)[1..] == [] && next == [base[0] + 1];
      if Head(release) > base[0] {
        NothingBelowZeros(Tail(release), Tail(next));
      }
    } else {
      assert AllButLast(base)[1..] == AllButLast(base[1..]);
      assert next == [base[0]] + NextRelease(base[1..]);
      if Head(release) == base[0] {
        BeginsBelow(base[1..], Tail(release));
      }
    }
  }

  lemma NothingBelowZeros(a: seq<nat>, b: seq<nat>)
    requires |b| == 0
    ensures !Compare(a, b).Lt?
    decreases |a|
  {
    if |a| > 0 {
      NothingBelowZeros(Tail(a), b);
    }
  }

  // The compatible-release operator admits a range of its own epoch: from its version on, and
  // short of the release in which the last number but one is raised.
  lemma CompatibleIsARange(v: Version, c: Constraint)
    requires c.op.Compatible?
    ensures Satisfies(v, c) <==>
      && !Less(v.Public(), c.version) && v.epoch == c.version.epoch
      && Compare(v.release, NextRelease(c.version.release)).Lt?
  {
    Flips(v.Public(), c.version);
    if v.epoch == c.version.epoch && AtMost(c.version, v.Public()) {
      BeginsBelow(c.version.release, v.release);
    }
  }

  // Bounds admit exactly what is not beyond them, and a pin what equals it; a local label matters
  // to a pin that has one, and to nothing else.
  lemma AdmitsIff(v: Version, c: Constraint)
    ensures c.op.AtLeast? ==> (Satisfies(v, c) <==> !Less(v.Public(), c.version))
    ensures c.op.UpTo? ==> (Satisfies(v, c) <==> !Less(c.version, v.Public()))
    ensures c.op.Exact? ==> (Satisfies(v, c) <==> Same(v.Public(), c.version.Public()) && (c.version.local == 0 || v.local == c.version.local))
    ensures !c.op.Exact? || c.version.local == 0 ==> (Satisfies(v, c) <==> Satisfies(v.Public(), c))
  {
    Flips(v.Public(), c.version);
  }

  // ---------------------------------------------------------------- the quick test

  function Pins(cs: seq<Constraint>): set<Version> { set c | c in cs && c.op.Exact? :: c.version }

  predicate IsLower(c: Specifier) { c.op.AtLeast? || c.op.Compatible? }

  function Lowers(cs: seq<Constraint>): seq<Version> {
    if |cs| == 0 then []
    else if IsLower(cs[0]) then [cs[0].version] + Lowers(cs[1..])
    else Lowers(cs[1..])
  }

  function Highest(vs: seq<Version>): Version
    requires |vs| > 0
  {
    if |vs| == 1 then vs[0]
    else
      var rest := Highest(vs[1..]);
      if Less(vs[0], rest) then rest else vs[0]
  }

  predicate Conflict(cs: seq<Constraint>) {
    if Pins(cs) != {} then forall v :: v in Pins(cs) ==> !SatisfiesAll(v, cs)
    else Lowers(cs) != [] && !SatisfiesAll(Highest(Lowers(cs)), cs)
  }

  // ---------------------------------------------------------------- it is right

  lemma {:induction false} LowersAre(cs: seq<Constraint>)
    ensures forall v :: v in Lowers(cs) <==> exists c :: c in cs && IsLower(c) && c.version == v
  {
    if |cs| > 0 {
      LowersAre(cs[1..]);
      assert cs == [cs[0]] + cs[1..];
      assert forall c :: c in cs <==> c == cs[0] || c in cs[1..];
    }
  }

  lemma {:induction false} HighestIsHighest(vs: seq<Version>)
    requires |vs| > 0
    ensures Highest(vs) in vs && forall v :: v in vs ==> AtMost(v, Highest(vs))
  {
    Reflexive(vs[0]);
    if |vs| > 1 {
      var rest := Highest(vs[1..]);
      HighestIsHighest(vs[1..]);
      Flips(vs[0], rest);
      forall v | v in vs
        ensures AtMost(v, Highest(vs))
      {
        if v != vs[0] && !Less(vs[0], rest) {
          assert v in vs[1..];
          Chains(v, rest, vs[0]);
        }
      }
    }
  }

  // A version that satisfies every constraint makes a pin satisfy them too.
  lemma PinWitness(v: Version, cs: seq<Constraint>)
    requires SatisfiesAll(v, cs) && Pins(cs) != {}
    ensures exists p :: p in Pins(cs) && SatisfiesAll(p, cs)
  {
    if c :| c in cs && c.op.Exact? && c.version.local != 0 {
      assert c.version in Pins(cs);
      forall d | d in cs
        ensures Satisfies(c.version, d)
      {
        SameSatisfiesSame(v, c.version, d);
      }
    } else {
      var p :| p in Pins(cs);
      var c :| c in cs && c.op.Exact? && c.version == p;
      forall d | d in cs
        ensures Satisfies(p, d)
      {
        assert Satisfies(v.Public(), d);
        SameSatisfiesSame(v.Public(), p, d);
      }
    }
  }

  lemma SameSatisfiesSame(v: Version, w: Version, c: Constraint)
    requires Same(v, w) && Satisfies(v, c)
    ensures Satisfies(w, c)
  {
    Flips(v, w);
    SamePublic(v, w);
    Flips(v.Public(), w.Public());
    match c.op {
      case Exact =>
        if c.version.local == 0 {
          Chains(w.Public(), v.Public(), c.version);
        } else {
          Chains(w, v, c.version);
        }
      case AtLeast => Chains(c.version, v.Public(), w.Public());
      case UpTo => Chains(w.Public(), v.Public(), c.version);
      case Compatible =>
        Chains(c.version, v.Public(), w.Public());
        BeginsRespectsSame(AllButLast(c.version.release), v.release, w.release);
    }
  }

  lemma SamePublic(v: Version, w: Version)
    requires Same(v, w)
    ensures Same(v.Public(), w.Public())
  {
  }

  // The highest lower bound satisfies whatever some version satisfies.
  lemma BoundWitness(v: Version, cs: seq<Constraint>, c: Constraint)
    requires SatisfiesAll(v, cs) && Lowers(cs) != [] && c in cs && !c.op.Exact?
    ensures Satisfies(Highest(Lowers(cs)), c)
  {
    LowersAre(cs);
    HighestIsHighest(Lowers(cs));
    var w := Highest(Lowers(cs));
    var l :| l in cs && IsLower(l) && l.version == w;
    assert w.Public() == w && AtMost(w, v.Public());
    if IsLower(c) {
      assert c.version in Lowers(cs);
    }
    match c.op {
      case AtLeast => {}
      case UpTo => Chains(w, v.Public(), c.version);
      case Compatible =>
        var n := |c.version.release| - 1;
        BeginsItself(c.version.release, n);
        ReleasesBetween(c.version, w, v.Public());
        PrefixIsConvex(AllButLast(c.version.release), c.version.release, w.release, v.release);
      case Exact => {}
    }
  }

  // Between two versions of one epoch, the epoch is the same and the releases are in order.
  lemma ReleasesBetween(a: Version, b: Version, c: Version)
    requires AtMost(a, b) && AtMost(b, c) && a.epoch == c.epoch
    ensures b.epoch == a.epoch && !Compare(a.release, b.release).Gt? && !Compare(b.release, c.release).Gt?
  {
  }

  lemma {:induction false} LowestUpper(cs: seq<Constraint>)
    requires forall c :: c in cs ==> c.op.UpTo?
    ensures Satisfiable(cs)
  {
    if |cs| == 0 {
      assert SatisfiesAll(Version(0, [], [], 0), cs);
    } else {
      LowestUpper(cs[1..]);
      var v :| SatisfiesAll(v, cs[1..]);
      var u := cs[0].version;
      assert cs[0] in cs && u.Public() == u;
      Reflexive(u);
      Flips(v.Public(), u);
      assert forall c :: c in cs <==> c == cs[0] || c in cs[1..];
      if AtMost(v.Public(), u) {
        assert SatisfiesAll(v, cs);
      } else {
        forall c | c in cs
          ensures Satisfies(u, c)
        {
          if c in cs[1..] {
            assert Satisfies(v, c);
            Chains(u, v.Public(), c.version);
          }
        }
        assert SatisfiesAll(u, cs);
      }
    }
  }

  // The quick test reports a conflict exactly when no version satisfies all the constraints.
  lemma ConflictIffUnsatisfiable(cs: seq<Constraint>)
    ensures Conflict(cs) <==> !Satisfiable(cs)
  {
    if Satisfiable(cs) {
      var v :| SatisfiesAll(v, cs);
      if Pins(cs) != {} {
        PinWitness(v, cs);
      } else if Lowers(cs) != [] {
        forall c | c in cs
          ensures Satisfies(Highest(Lowers(cs)), c)
        {
          assert !c.op.Exact? by { assert c.op.Exact? ==> c.version in Pins(cs); }
          BoundWitness(v, cs, c);
        }
      }
    } else if Pins(cs) == {} {
      LowersAre(cs);
      forall c | c in cs && Lowers(cs) == []
        ensures c.op.UpTo?
      {
        assert c.op.Exact? ==> c.version in Pins(cs);
        assert IsLower(c) ==> c.version in Lowers(cs);
      }
      if Lowers(cs) == [] {
        LowestUpper(cs);
      }
    }
  }
}
