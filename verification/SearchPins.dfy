/**
  The pins of a search, made of versions: every version is told to the search by its number, equal
  versions having the same one, and the candidates come in the order of preference.
 */
module SearchPins {
  import opened Versions
  import opened Candidates
  import opened Frontiers
  import CompatibleResolvers

  // The position of the first version equal to it.
  function Number(all: seq<Version>, v: Version): (n: nat)
    requires Has(all, v)
    ensures n < |all| && Same(v, all[n])
  {
    if Same(v, all[0]) then 0
    else
      assert all == [all[0]] + all[1..];
      1 + Number(all[1..], v)
  }

  lemma SameIsShared(u: Version, v: Version, w: Version)
    requires Same(u, v)
    ensures Same(u, w) <==> Same(v, w)
  {
    Flips(u, v);
    if Same(u, w) {
      Chains(v, u, w);
    }
    if Same(v, w) {
      Chains(u, v, w);
    }
  }

  lemma {:induction false} NumbersTellApart(all: seq<Version>, v: Version, w: Version)
    requires Has(all, v) && Has(all, w)
    ensures Number(all, v) == Number(all, w) <==> Same(v, w)
    decreases |all|
  {
    if Number(all, v) == Number(all, w) {
      var u := all[Number(all, v)];
      Flips(w, u);
      Flips(u, w);
      SameIsShared(v, u, w);
    }
    if Same(v, w) {
      SameIsShared(v, w, all[0]);
      assert all == [all[0]] + all[1..];
      if !Same(v, all[0]) {
        NumbersTellApart(all[1..], v, w);
      }
    }
  }

  // A requirement's original version and the versions its discovery lets through.
  datatype Request = Request(original: Version, available: seq<Version>)

  ghost predicate Known(all: seq<Version>, r: Request) {
    Has(all, r.original) && forall v :: v in r.available ==> Has(all, v)
  }

  // In order of preference, no more than the limit.
  function Accepted(r: Request, limit: nat): (accepted: seq<Version>)
    ensures forall v :: v in accepted ==> v in r.available && Eligible(r.original, v)
  {
    CandidatesAreOrdered(r.original, r.available);
    var ordered := OrderedCandidates(r.original, r.available);
    if limit < |ordered| then ordered[..limit] else ordered
  }

  function PinOf(all: seq<Version>, r: Request, limit: nat): Pin
    requires Known(all, r)
  {
    var accepted := Accepted(r, limit);
    Pin(Number(all, r.original), seq(|accepted|, (i: nat) requires i < |accepted| => Number(all, accepted[i])))
  }

  // The pin is one the search may be run on: no candidate is the original and none occurs twice.
  // Its candidates are the eligible versions in order of preference, all of them when the limit
  // leaves none out, and otherwise the most preferred.
  lemma PinIsGood(all: seq<Version>, r: Request, limit: nat)
    requires Known(all, r)
    ensures var pin, accepted := PinOf(all, r, limit), Accepted(r, limit);
      && GoodPin(pin) && |pin.candidates| == |accepted|
      && (forall i :: 0 <= i < |accepted| ==> pin.candidates[i] < |all| && Same(accepted[i], all[pin.candidates[i]]))
      && InOrder(r.original, accepted) && accepted <= OrderedCandidates(r.original, r.available)
      && (limit < |OrderedCandidates(r.original, r.available)| ==> |accepted| == limit)
      && (|OrderedCandidates(r.original, r.available)| <= limit ==> forall v :: v in r.available && Eligible(r.original, v) ==> Has(accepted, v))
  {
    var pin, accepted := PinOf(all, r, limit), Accepted(r, limit);
    CandidatesAreOrdered(r.original, r.available);
    forall i | 0 <= i < |accepted|
      ensures pin.candidates[i] != pin.original
    {
      NumbersTellApart(all, accepted[i], r.original);
    }
    forall i, j | 0 <= i < j < |accepted|
      ensures pin.candidates[i] != pin.candidates[j]
    {
      PrecedesIsStrict(r.original, accepted[i], accepted[j]);
      NumbersTellApart(all, accepted[i], accepted[j]);
    }
  }

  function PinsOf(all: seq<Version>, rs: seq<Request>, limit: nat): seq<Pin>
    requires forall i :: 0 <= i < |rs| ==> Known(all, rs[i])
  {
    seq(|rs|, (i: nat) requires i < |rs| => PinOf(all, rs[i], limit))
  }

  // So a search over any requirements, with distinct sources, is one the search's results hold of.
  lemma SearchIsGood(all: seq<Version>, rs: seq<Request>, limit: nat, sources: seq<CompatibleResolvers.Source>,
                     strict: CompatibleResolvers.Trial -> bool, offers: (nat, V, CompatibleResolvers.Source) -> bool)
    requires forall i :: 0 <= i < |rs| ==> Known(all, rs[i])
    requires forall i, j :: 0 <= i < j < |sources| ==> sources[i] != sources[j]
    ensures CompatibleResolvers.Problem(PinsOf(all, rs, limit), sources, strict, offers).Good()
  {
    forall i | 0 <= i < |rs|
      ensures GoodPin(PinsOf(all, rs, limit)[i])
    {
      PinIsGood(all, rs[i], limit);
    }
  }
}
