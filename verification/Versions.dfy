/**
  Versions and their order, after the version scheme of PEP 440: an epoch, a release compared as
  if padded with zeros, the key of the pre-, post- and development suffix, and a local label.
 */
module Versions {
  datatype Order = Lt | Eq | Gt

  // The suffix is the comparison key of its parts: the phase of the pre-release (0 for a
  // development release alone, 1 to 3 for alpha, beta and release candidate, 4 for none), its
  // number, the post-release (0 for none), 1 when it is not a development release, and its number.
  // Local is 0 when there is no local label.
  datatype Version = Version(epoch: nat, release: seq<nat>, suffix: seq<nat>, local: nat)
  {
    function Public(): Version { this.(local := 0) }
  }

  function Head(s: seq<nat>): nat { if |s| == 0 then 0 else s[0] }

  function Tail(s: seq<nat>): seq<nat> { if |s| == 0 then s else s[1..] }

  function CompareNat(a: nat, b: nat): Order { if a < b then Lt else if a > b then Gt else Eq }

  // The first difference decides, a missing number counting as zero.
  function Compare(a: seq<nat>, b: seq<nat>): Order
    decreases |a| + |b|
  {
    if |a| == 0 && |b| == 0 then Eq
    else if Head(a) != Head(b) then CompareNat(Head(a), Head(b))
    else Compare(Tail(a), Tail(b))
  }

  function Then(first: Order, second: Order): Order { if first.Eq? then second else first }

  function CompareVersions(v: Version, w: Version): Order {
    Then(CompareNat(v.epoch, w.epoch), Then(Compare(v.release, w.release),
      Then(Compare(v.suffix, w.suffix), CompareNat(v.local, w.local))))
  }

  predicate Same(v: Version, w: Version) { CompareVersions(v, w).Eq? }

  predicate Less(v: Version, w: Version) { CompareVersions(v, w).Lt? }

  predicate AtMost(v: Version, w: Version) { !CompareVersions(v, w).Gt? }

  function Flip(o: Order): Order { match o case Lt => Gt case Eq => Eq case Gt => Lt }

  // ---------------------------------------------------------------- what the order is

  function Part(s: seq<nat>, i: nat): nat { if i < |s| then s[i] else 0 }

  ghost predicate Alike(a: seq<nat>, b: seq<nat>) { forall i: nat :: Part(a, i) == Part(b, i) }

  // Up to some number they are alike, and there the first is smaller.
  ghost predicate Smaller(a: seq<nat>, b: seq<nat>) {
    exists k: nat :: Part(a, k) < Part(b, k) && SameBefore(a, b, k)
  }

  ghost predicate SameBefore(a: seq<nat>, b: seq<nat>, k: nat) { forall i: nat :: i < k ==> Part(a, i) == Part(b, i) }

  lemma TailParts(s: seq<nat>, i: nat)
    ensures Part(Tail(s), i) == Part(s, i + 1) && Part(s, 0) == Head(s)
  {
  }

  lemma TailsAlike(a: seq<nat>, b: seq<nat>)
    ensures Alike(a, b) <==> Head(a) == Head(b) && Alike(Tail(a), Tail(b))
  {
    forall i: nat
      ensures Part(Tail(a), i) == Part(a, i + 1) && Part(Tail(b), i) == Part(b, i + 1)
    {
    }
    if Head(a) == Head(b) && Alike(Tail(a), Tail(b)) {
      forall i: nat
        ensures Part(a, i) == Part(b, i)
      {
        if i > 0 {
          assert Part(Tail(a), i - 1) == Part(Tail(b), i - 1);
        }
      }
    }
    if Alike(a, b) {
      assert Part(a, 0) == Part(b, 0);
      forall i: nat
        ensures Part(Tail(a), i) == Part(Tail(b), i)
      {
        assert Part(a, i + 1) == Part(b, i + 1);
      }
    }
  }

  lemma TailsSmaller(a: seq<nat>, b: seq<nat>)
    ensures Smaller(a, b) <==> Head(a) < Head(b) || (Head(a) == Head(b) && Smaller(Tail(a), Tail(b)))
  {
    if Smaller(a, b) && Head(a) >= Head(b) {
      var k: nat :| Part(a, k) < Part(b, k) && SameBefore(a, b, k);
      assert k > 0 && Part(a, 0) == Part(b, 0);
      TailParts(a, k - 1);
      TailParts(b, k - 1);
      forall i: nat | i < k - 1
        ensures Part(Tail(a), i) == Part(Tail(b), i)
      {
        assert Part(a, i + 1) == Part(b, i + 1);
      }
      assert SameBefore(Tail(a), Tail(b), k - 1);
    } else if Head(a) < Head(b) {
      assert Part(a, 0) < Part(b, 0) && SameBefore(a, b, 0);
    } else if Head(a) == Head(b) && Smaller(Tail(a), Tail(b)) {
      var k: nat :| Part(Tail(a), k) < Part(Tail(b), k) && SameBefore(Tail(a), Tail(b), k);
      forall i: nat | i < k + 1
        ensures Part(a, i) == Part(b, i)
      {
        if i > 0 {
          assert Part(Tail(a), i - 1) == Part(Tail(b), i - 1);
        }
      }
      assert Part(a, k + 1) < Part(b, k + 1) && SameBefore(a, b, k + 1);
    }
  }

  // Numbers are compared one by one, those that are missing as zero.
  lemma {:induction false} CompareIs(a: seq<nat>, b: seq<nat>)
    ensures Compare(a, b).Lt? <==> Smaller(a, b)
    ensures Compare(a, b).Eq? <==> Alike(a, b)
    decreases |a| + |b|
  {
    if |a| + |b| > 0 {
      TailsAlike(a, b);
      TailsSmaller(a, b);
      CompareIs(Tail(a), Tail(b));
    } else {
      assert forall k: nat :: Part(a, k) == 0 == Part(b, k);
    }
  }

  // The epoch decides before the release, the release before the suffix, the suffix before the
  // local label.
  lemma LessIff(v: Version, w: Version)
    ensures Less(v, w) <==>
      || v.epoch < w.epoch
      || (v.epoch == w.epoch &&
           (|| Smaller(v.release, w.release)
            || (Alike(v.release, w.release) &&
                  (Smaller(v.suffix, w.suffix) || (Alike(v.suffix, w.suffix) && v.local < w.local)))))
    ensures Same(v, w) <==>
      v.epoch == w.epoch && Alike(v.release, w.release) && Alike(v.suffix, w.suffix) && v.local == w.local
  {
    CompareIs(v.release, w.release);
    CompareIs(v.suffix, w.suffix);
  }

  // ---------------------------------------------------------------- a total order

  lemma {:induction false} CompareFlips(a: seq<nat>, b: seq<nat>)
    ensures Compare(b, a) == Flip(Compare(a, b))
    decreases |a| + |b|
  {
    if |a| + |b| > 0 {
      CompareFlips(Tail(a), Tail(b));
    }
  }

  lemma {:induction false} CompareChains(a: seq<nat>, b: seq<nat>, c: seq<nat>)
    requires !Compare(a, b).Gt? && !Compare(b, c).Gt?
    ensures !Compare(a, c).Gt?
    ensures Compare(a, c).Eq? <==> Compare(a, b).Eq? && Compare(b, c).Eq?
    decreases |a| + |b| + |c|
  {
    if |a| + |b| + |c| > 0 && Head(a) == Head(b) && Head(b) == Head(c) {
      CompareChains(Tail(a), Tail(b), Tail(c));
    }
  }

  lemma Flips(v: Version, w: Version)
    ensures CompareVersions(w, v) == Flip(CompareVersions(v, w))
  {
    CompareFlips(v.release, w.release);
    CompareFlips(v.suffix, w.suffix);
  }

  lemma Chains(u: Version, v: Version, w: Version)
    requires AtMost(u, v) && AtMost(v, w)
    ensures AtMost(u, w)
    ensures Same(u, w) <==> Same(u, v) && Same(v, w)
  {
    if u.epoch == v.epoch && v.epoch == w.epoch {
      CompareChains(u.release, v.release, w.release);
      if Compare(u.release, v.release).Eq? && Compare(v.release, w.release).Eq? {
        CompareChains(u.suffix, v.suffix, w.suffix);
      }
    }
  }

  lemma {:induction false} CompareSelf(a: seq<nat>)
    ensures Compare(a, a).Eq?
  {
    if |a| > 0 {
      CompareSelf(Tail(a));
    }
  }

  lemma Reflexive(v: Version)
    ensures Same(v, v)
  {
    CompareSelf(v.release);
    CompareSelf(v.suffix);
  }

  // ---------------------------------------------------------------- prefixes of a release

  // The release, padded with zeros, begins with the prefix.
  predicate Begins(prefix: seq<nat>, release: seq<nat>)
    decreases prefix
  {
    |prefix| == 0 || (Head(release) == prefix[0] && Begins(prefix[1..], Tail(release)))
  }

  lemma {:induction false} BeginsIff(prefix: seq<nat>, release: seq<nat>)
    ensures Begins(prefix, release) <==> forall i :: 0 <= i < |prefix| ==> Part(release, i) == prefix[i]
    decreases |prefix|
  {
    if |prefix| > 0 {
      BeginsIff(prefix[1..], Tail(release));
      forall i | 0 <= i < |prefix|
        ensures i > 0 ==> prefix[i] == prefix[1..][i - 1] && Part(release, i) == Part(Tail(release), i - 1)
      {
      }
      if forall i :: 0 <= i < |prefix| ==> Part(release, i) == prefix[i] {
        assert Part(release, 0) == prefix[0];
        forall i | 0 <= i < |prefix| - 1
          ensures Part(Tail(release), i) == prefix[1..][i]
        {
          assert Part(release, i + 1) == prefix[i + 1];
        }
      }
    }
  }

  // What lies between two releases with a prefix has the prefix.
  lemma {:induction false} PrefixIsConvex(prefix: seq<nat>, a: seq<nat>, b: seq<nat>, c: seq<nat>)
    requires Begins(prefix, a) && Begins(prefix, c) && !Compare(a, b).Gt? && !Compare(b, c).Gt?
    ensures Begins(prefix, b)
    decreases |prefix|
  {
    if |prefix| > 0 {
      if |a| + |b| + |c| > 0 {
        PrefixIsConvex(prefix[1..], Tail(a), Tail(b), Tail(c));
      }
    }
  }

  lemma {:induction false} BeginsItself(release: seq<nat>, n: nat)
    requires n <= |release|
    ensures Begins(release[..n], release)
    decreases n
  {
    if n > 0 {
      assert release[..n][1..] == release[1..][..n - 1];
      BeginsItself(release[1..], n - 1);
    }
  }

  lemma {:induction false} BeginsRespectsSame(prefix: seq<nat>, a: seq<nat>, b: seq<nat>)
    requires Compare(a, b).Eq? && Begins(prefix, a)
    ensures Begins(prefix, b)
    decreases |prefix|
  {
    if |prefix| > 0 {
      if |a| + |b| > 0 {
        BeginsRespectsSame(prefix[1..], Tail(a), Tail(b));
      }
    }
  }
}
