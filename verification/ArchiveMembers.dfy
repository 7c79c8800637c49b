/**
  The check of an archive's member list: names, topology, flags and declared sizes.
 */
module ArchiveMembers {
  import opened Options
  import opened Topologies

  // A member of the list: its raw name, its portable path if the name has one, and its header.
  datatype Info = Info(
    raw: nat, path: Option<seq<Component>>, isDirectory: bool, core: bool,
    volume: nat, encrypted: bool, symlink: bool, fileSize: int, compressSize: int)

  datatype ArchiveLimits = ArchiveLimits(maxEntries: nat, maxEntryBytes: nat, maxTotalBytes: nat, maxRatio: nat)

  datatype Failure = TooMany | DuplicateRaw | UnsafePath | Topological(refusal: Refusal) | Unsupported | BadSize | TooLarge

  // The normalized name of a member: its path, and whether it is a directory's.
  datatype Name = Name(path: seq<Component>, isDirectory: bool)

  function MemberOf(info: Info): Member
    requires info.path.Some?
  {
    Member(info.raw, info.path.value, info.isDirectory, info.core)
  }

  function NameOf(info: Info): Name
    requires info.path.Some?
  {
    Name(info.path.value, info.isDirectory)
  }

  predicate SizeAllowed(info: Info, lim: ArchiveLimits) {
    && 0 <= info.fileSize <= lim.maxEntryBytes && info.compressSize >= 0
    && (info.isDirectory ==> info.fileSize == 0)
    && (info.fileSize > 0 ==> info.compressSize > 0 && info.fileSize <= lim.maxRatio * info.compressSize)
  }

  // What a member must be by itself.
  predicate Acceptable(info: Info, lim: ArchiveLimits) {
    && info.path.Some? && info.volume == 0 && !info.encrypted && !info.symlink && SizeAllowed(info, lim)
  }

  function DeclaredTotal(infos: seq<Info>): int {
    if |infos| == 0 then 0 else DeclaredTotal(infos[..|infos| - 1]) + infos[|infos| - 1].fileSize
  }

  ghost predicate AllHavePaths(infos: seq<Info>) { forall i :: 0 <= i < |infos| ==> infos[i].path.Some? }

  function Members(infos: seq<Info>): seq<Member>
    requires AllHavePaths(infos)
  {
    seq(|infos|, (i: nat) requires i < |infos| && infos[i].path.Some? => MemberOf(infos[i]))
  }

  // A raw name has one path.
  ghost predicate RawNamesPaths(infos: seq<Info>) {
    forall i, j :: 0 <= i < j < |infos| && infos[i].raw == infos[j].raw ==> infos[i].path == infos[j].path
  }

  // The list as a whole: every member by itself, all of them together, and their total.
  ghost predicate AcceptableList(infos: seq<Info>, lim: ArchiveLimits) {
    && |infos| <= lim.maxEntries
    && (forall i :: 0 <= i < |infos| ==> Acceptable(infos[i], lim))
    && DeclaredTotal(infos) <= lim.maxTotalBytes
    && AllHavePaths(infos) && AllTogether(Members(infos))
  }

  // The checks of one member that need nothing but its header.
  function HeaderFailure(info: Info): Option<Failure> {
    if info.volume != 0 || info.encrypted || info.symlink then Some(Unsupported)
    else if info.fileSize < 0 || info.compressSize < 0 || (info.isDirectory && info.fileSize != 0) then Some(BadSize)
    else None
  }

  function RatioFailure(info: Info, lim: ArchiveLimits): Option<Failure> {
    if info.fileSize > 0 && (info.compressSize == 0 || info.fileSize > lim.maxRatio * info.compressSize) then Some(TooLarge)
    else None
  }

  lemma HeaderIsAll(info: Info, lim: ArchiveLimits)
    requires info.path.Some?
    ensures Acceptable(info, lim)
      <==> HeaderFailure(info).None? && info.fileSize <= lim.maxEntryBytes && RatioFailure(info, lim).None?
  {
  }

  // What has been accepted so far.
  ghost predicate Accepted(infos: seq<Info>, n: nat, lim: ArchiveLimits) {
    && n <= |infos| && (forall i :: 0 <= i < n ==> Acceptable(infos[i], lim))
    && DeclaredTotal(infos[..n]) <= lim.maxTotalBytes
    && AllHavePaths(infos[..n]) && AllTogether(Members(infos[..n]))
  }

  ghost predicate RawIsTaken(infos: seq<Info>, n: nat)
    requires n < |infos|
  {
    exists i :: 0 <= i < n && infos[i].raw == infos[n].raw
  }

  // What is reported of member n when those before it are in order: the first of its faults, in
  // the order of raw name, path, topology, kind, sizes that make no sense, and sizes too large.
  ghost function Fault(infos: seq<Info>, n: nat, lim: ArchiveLimits): Option<Failure>
    requires n < |infos| && AllHavePaths(infos[..n])
  {
    var info := infos[n];
    if RawIsTaken(infos, n) then Some(DuplicateRaw)
    else if info.path.None? then Some(UnsafePath)
    else if RefusalOf(Members(infos[..n]), MemberOf(info)).Some? then
      Some(Topological(RefusalOf(Members(infos[..n]), MemberOf(info)).value))
    else if info.volume != 0 || info.encrypted || info.symlink then Some(Unsupported)
    else if info.fileSize < 0 || info.compressSize < 0 || (info.isDirectory && info.fileSize > 0) then Some(BadSize)
    else if !SizeAllowed(info, lim) || DeclaredTotal(infos[..n]) + info.fileSize > lim.maxTotalBytes then Some(TooLarge)
    else None
  }

  // A member without fault is exactly one that can be accepted after those before it.
  lemma FaultIff(infos: seq<Info>, n: nat, lim: ArchiveLimits)
    requires RawNamesPaths(infos) && n < |infos| && Accepted(infos, n, lim)
    ensures Fault(infos, n, lim).None? <==> Accepted(infos, n + 1, lim)
  {
    if infos[n].path.Some? {
      RefusedIff(Members(infos[..n]), MemberOf(infos[n]));
      AcceptedStep(infos, n, lim);
      if RawIsTaken(infos, n) {
        var i :| 0 <= i < n && infos[i].raw == infos[n].raw;
        RepeatedName(infos, i, n, lim);
      }
    } else {
      assert infos[..n + 1][n] == infos[n];
    }
  }

  // The first member with a fault, and that fault.
  ghost predicate FirstFault(infos: seq<Info>, n: nat, lim: ArchiveLimits, failure: Failure) {
    n < |infos| && Accepted(infos, n, lim) && Fault(infos, n, lim) == Some(failure)
  }

  // Too long a list is not looked into; of any other the first fault is reported.
  ghost predicate Reported(infos: seq<Info>, lim: ArchiveLimits, failure: Failure) {
    if |infos| > lim.maxEntries then failure == TooMany else exists n :: FirstFault(infos, n, lim, failure)
  }

  // There is only one answer.
  lemma ReportIsUnique(infos: seq<Info>, lim: ArchiveLimits, f: Failure, g: Failure)
    requires RawNamesPaths(infos) && Reported(infos, lim, f) && Reported(infos, lim, g)
    ensures f == g
  {
    if |infos| <= lim.maxEntries {
      var m: nat :| FirstFault(infos, m, lim, f);
      var n: nat :| FirstFault(infos, n, lim, g);
      OneFirstFault(infos, m, n, lim, f, g);
    }
  }

  lemma OneFirstFault(infos: seq<Info>, m: nat, n: nat, lim: ArchiveLimits, f: Failure, g: Failure)
    requires RawNamesPaths(infos) && FirstFault(infos, m, lim, f) && FirstFault(infos, n, lim, g)
    ensures m == n
  {
    if m < n {
      FaultIff(infos, m, lim);
      Beginnings(infos, m + 1, n, lim);
    } else if n < m {
      FaultIff(infos, n, lim);
      Beginnings(infos, n + 1, m, lim);
    }
  }

  lemma Beginnings(infos: seq<Info>, m: nat, n: nat, lim: ArchiveLimits)
    requires m <= n && Accepted(infos, n, lim)
    ensures Accepted(infos, m, lim)
  {
    TotalGrows(infos, m, n);
    assert infos[..n][..m] == infos[..m];
    assert forall i :: 0 <= i < m ==> infos[..m][i] == infos[..n][i];
    assert forall i :: 0 <= i < m ==> Members(infos[..m])[i] == Members(infos[..n])[i];
  }

  lemma AcceptedStep(infos: seq<Info>, n: nat, lim: ArchiveLimits)
    requires n < |infos| && Accepted(infos, n, lim) && infos[n].path.Some?
    ensures Accepted(infos, n + 1, lim) <==>
      && Acceptable(infos[n], lim) && DeclaredTotal(infos[..n]) + infos[n].fileSize <= lim.maxTotalBytes
      && forall d :: d in Members(infos[..n]) ==> Together(d, MemberOf(infos[n]))
  {
    var before, after := infos[..n], infos[..n + 1];
    assert after[..n] == before && after[n] == infos[n];
    assert AllHavePaths(after);
    assert Members(after) == Members(before) + [MemberOf(infos[n])];
    if Accepted(infos, n + 1, lim) {
      forall d | d in Members(before)
        ensures Together(d, MemberOf(infos[n]))
      {
        var i: nat :| i < n && Members(before)[i] == d;
        assert Together(Members(after)[i], Members(after)[n]);
      }
    }
  }

  lemma {:induction false} TotalGrows(infos: seq<Info>, m: nat, n: nat)
    requires m <= n <= |infos| && forall i :: 0 <= i < n ==> infos[i].fileSize >= 0
    ensures DeclaredTotal(infos[..m]) <= DeclaredTotal(infos[..n])
    decreases n
  {
    if m < n {
      assert infos[..n][..n - 1] == infos[..n - 1];
      TotalGrows(infos, m, n - 1);
    }
  }

  // An accepted list has only accepted beginnings.
  lemma BeginningsAreAccepted(infos: seq<Info>, n: nat, lim: ArchiveLimits)
    requires AcceptableList(infos, lim) && n <= |infos|
    ensures Accepted(infos, n, lim)
  {
    TotalGrows(infos, n, |infos|);
    assert infos[..|infos|] == infos;
    assert forall i :: 0 <= i < n ==> Members(infos[..n])[i] == Members(infos)[i];
  }

  lemma CannotBeMended(infos: seq<Info>, n: nat, lim: ArchiveLimits)
    requires n <= |infos| && !Accepted(infos, n, lim)
    ensures !AcceptableList(infos, lim)
  {
    if AcceptableList(infos, lim) {
      BeginningsAreAccepted(infos, n, lim);
    }
  }

  // A member under a raw name, or a normalized name, that was there before.
  lemma RepeatedName(infos: seq<Info>, i: nat, n: nat, lim: ArchiveLimits)
    requires i < n < |infos| && Accepted(infos, n, lim) && infos[n].path.Some? && infos[i].path == infos[n].path
    ensures infos[i].path.Some? && exists d :: d in Members(infos[..n]) && !Together(d, MemberOf(infos[n]))
  {
    var d := Members(infos[..n])[i];
    assert d.components == MemberOf(infos[n]).components && d.Key() == MemberOf(infos[n]).Key();
    assert d in Members(infos[..n]);
  }

  lemma RepeatedRaw(infos: seq<Info>, n: nat, lim: ArchiveLimits)
    requires RawNamesPaths(infos) && n < |infos| && Accepted(infos, n, lim) && RawIsTaken(infos, n)
    ensures !AcceptableList(infos, lim) && FirstFault(infos, n, lim, DuplicateRaw)
  {
    FaultIff(infos, n, lim);
    CannotBeMended(infos, n + 1, lim);
  }

  lemma WholeIsAccepted(infos: seq<Info>, lim: ArchiveLimits)
    requires |infos| <= lim.maxEntries && Accepted(infos, |infos|, lim)
    ensures AcceptableList(infos, lim)
  {
    assert infos[..|infos|] == infos;
  }

  function NamesTo(infos: seq<Info>, n: nat): set<Name>
    requires n <= |infos| && forall i :: 0 <= i < n ==> infos[i].path.Some?
  {
    if n == 0 then {} else NamesTo(infos, n - 1) + {NameOf(infos[n - 1])}
  }

  lemma {:induction false} NamesToMember(infos: seq<Info>, n: nat, name: Name)
    requires n <= |infos| && forall i :: 0 <= i < n ==> infos[i].path.Some?
    ensures name in NamesTo(infos, n) <==> exists i :: 0 <= i < n && NameOf(infos[i]) == name
  {
    if n > 0 {
      NamesToMember(infos, n - 1, name);
    }
  }

  // The result maps the normalized name of every member so far to it, and nothing else.
  ghost predicate Recorded(infos: seq<Info>, n: nat, result: map<Name, Info>) {
    && n <= |infos| && (forall i :: 0 <= i < n ==> infos[i].path.Some?)
    && (forall i :: 0 <= i < n ==> NameOf(infos[i]) in result && result[NameOf(infos[i])] == infos[i])
    && result.Keys == NamesTo(infos, n) && |result| == n
  }

  lemma RecordStep(infos: seq<Info>, n: nat, result: map<Name, Info>)
    requires n < |infos| && Recorded(infos, n, result) && infos[n].path.Some? && NameOf(infos[n]) !in result
    ensures Recorded(infos, n + 1, result[NameOf(infos[n]) := infos[n]])
  {
    var after := result[NameOf(infos[n]) := infos[n]];
    assert after.Keys == result.Keys + {NameOf(infos[n])};
    assert |after.Keys| == |result.Keys| + 1;
  }

  lemma NameIsNew(infos: seq<Info>, n: nat, result: map<Name, Info>, lim: ArchiveLimits)
    requires n < |infos| && Recorded(infos, n, result) && Accepted(infos, n, lim) && infos[n].path.Some?
    requires forall d :: d in Members(infos[..n]) ==> Together(d, MemberOf(infos[n]))
    ensures NameOf(infos[n]) !in result
  {
    if NameOf(infos[n]) in result {
      NamesToMember(infos, n, NameOf(infos[n]));
      var i :| 0 <= i < n && NameOf(infos[i]) == NameOf(infos[n]);
      RepeatedName(infos, i, n, lim);
    }
  }

  function RawNames(infos: seq<Info>, n: nat): set<nat>
    requires n <= |infos|
  {
    set i | 0 <= i < n :: infos[i].raw
  }

  lemma RawIsTakenIff(infos: seq<Info>, n: nat)
    requires n < |infos|
    ensures infos[n].raw in RawNames(infos, n) <==> RawIsTaken(infos, n)
    ensures RawNames(infos, n + 1) == RawNames(infos, n) + {infos[n].raw}
  {
  }

  // What the loop knows before member n.
  ghost predicate Scanned(infos: seq<Info>, n: nat, lim: ArchiveLimits, total: int, rawNames: set<nat>, result: map<Name, Info>) {
    && Accepted(infos, n, lim) && total == DeclaredTotal(infos[..n]) && Recorded(infos, n, result)
    && rawNames == RawNames(infos, n)
  }

  lemma ScanStep(infos: seq<Info>, n: nat, lim: ArchiveLimits, total: int, rawNames: set<nat>, result: map<Name, Info>)
    requires n < |infos| && Scanned(infos, n, lim, total, rawNames, result) && infos[n].path.Some?
    requires RefusalOf(Members(infos[..n]), MemberOf(infos[n])).None?
    ensures NameOf(infos[n]) !in result
    ensures Acceptable(infos[n], lim) && total + infos[n].fileSize <= lim.maxTotalBytes ==>
      Scanned(infos, n + 1, lim, total + infos[n].fileSize, rawNames + {infos[n].raw}, result[NameOf(infos[n]) := infos[n]])
    ensures !(Acceptable(infos[n], lim) && total + infos[n].fileSize <= lim.maxTotalBytes) ==> !AcceptableList(infos, lim)
  {
    RefusedIff(Members(infos[..n]), MemberOf(infos[n]));
    NameIsNew(infos, n, result, lim);
    AcceptedStep(infos, n, lim);
    RecordStep(infos, n, result);
    assert infos[..n + 1][..n] == infos[..n];
    if !(Acceptable(infos[n], lim) && total + infos[n].fileSize <= lim.maxTotalBytes) {
      CannotBeMended(infos, n + 1, lim);
    }
  }

  lemma TopologyRefuses(infos: seq<Info>, n: nat, lim: ArchiveLimits)
    requires n < |infos| && Accepted(infos, n, lim) && infos[n].path.Some? && !RawIsTaken(infos, n)
    requires RefusalOf(Members(infos[..n]), MemberOf(infos[n])).Some?
    ensures !AcceptableList(infos, lim)
    ensures FirstFault(infos, n, lim, Topological(RefusalOf(Members(infos[..n]), MemberOf(infos[n])).value))
  {
    RefusedIff(Members(infos[..n]), MemberOf(infos[n]));
    AcceptedStep(infos, n, lim);
    CannotBeMended(infos, n + 1, lim);
  }

  // What the checks of the header and the sizes find of a member that passed the others.
  lemma SizesFault(infos: seq<Info>, n: nat, lim: ArchiveLimits)
    requires n < |infos| && Accepted(infos, n, lim) && infos[n].path.Some? && !RawIsTaken(infos, n)
    requires RefusalOf(Members(infos[..n]), MemberOf(infos[n])).None?
    ensures var header := HeaderFailure(infos[n]);
      var large := || infos[n].fileSize > lim.maxEntryBytes || DeclaredTotal(infos[..n]) + infos[n].fileSize > lim.maxTotalBytes
                   || RatioFailure(infos[n], lim).Some?;
      && (header.Some? ==> FirstFault(infos, n, lim, header.value))
      && (header.None? && large ==> FirstFault(infos, n, lim, TooLarge))
      && (header.None? && !large ==> Acceptable(infos[n], lim))
      && (header.Some? || large ==>
            !(Acceptable(infos[n], lim) && DeclaredTotal(infos[..n]) + infos[n].fileSize <= lim.maxTotalBytes))
  {
    HeaderIsAll(infos[n], lim);
  }

  lemma MembersStep(infos: seq<Info>, n: nat)
    requires n < |infos| && AllHavePaths(infos[..n]) && infos[n].path.Some?
    ensures AllHavePaths(infos[..n + 1]) && Members(infos[..n + 1]) == Members(infos[..n]) + [MemberOf(infos[n])]
  {
    assert infos[..n + 1] == infos[..n] + [infos[n]];
  }

  // Accepts exactly the lists that are acceptable as a whole, and otherwise reports the first fault.  The test for a name that has been
  // accepted before never succeeds: the topology has refused such a member already.
  method ValidateMembers(infos: seq<Info>, lim: ArchiveLimits) returns (failure: Option<Failure>, result: map<Name, Info>)
    requires RawNamesPaths(infos)
    ensures failure.None? <==> AcceptableList(infos, lim)
    ensures failure.Some? ==> Reported(infos, lim, failure.value)
    ensures failure.None? ==> Recorded(infos, |infos|, result)
  {
    result := map[];
    if |infos| > lim.maxEntries {
      return Some(TooMany), result;
    }
    var total: int := 0;
    var rawNames: set<nat> := {};
    var topology := new Topology();
    var n: nat := 0;
    while n < |infos|
      invariant n <= |infos| && Scanned(infos, n, lim, total, rawNames, result)
      invariant topology.Valid() && fresh(topology) && fresh(topology.nodes.Values) && topology.done == Members(infos[..n])
    {
      var info := infos[n];
      RawIsTakenIff(infos, n);
      if info.raw in rawNames {
        RepeatedRaw(infos, n, lim);
        return Some(DuplicateRaw), result;
      }
      rawNames := rawNames + {info.raw};
      if info.path.None? {
        assert FirstFault(infos, n, lim, UnsafePath);
        return Some(UnsafePath), result;
      }
      MembersStep(infos, n);
      var refusal := topology.Insert(MemberOf(info));
      if refusal.Some? {
        TopologyRefuses(infos, n, lim);
        return Some(Topological(refusal.value)), result;
      }
      ScanStep(infos, n, lim, total, rawNames - {info.raw}, result);
      if NameOf(info) in result {
        assert false;
      }
      SizesFault(infos, n, lim);
      var header := HeaderFailure(info);
      total := total + info.fileSize;
      if header.Some? {
        return header, result;
      }
      if info.fileSize > lim.maxEntryBytes || total > lim.maxTotalBytes || RatioFailure(info, lim).Some? {
        return Some(TooLarge), result;
      }
      result := result[NameOf(info) := info];
      n := n + 1;
    }
    WholeIsAccepted(infos, lim);
    return None, result;
  }
}
