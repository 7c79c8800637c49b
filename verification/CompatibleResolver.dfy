/**
  The search for a compatible set of versions: the originals on every source, then frontier by
  frontier every tuple of candidates on the sources that offer it, under a deadline, a limit on
  attempts and a limit on visited combinations.
 */
module CompatibleResolvers {
  import opened Options
  import opened Frontiers

  type Source = nat

  datatype Trial = Trial(versions: Tuple, source: Source)

  datatype Outcome = Solved | Refused | TimedOut

  datatype Attempt = Attempt(trial: Trial, outcome: Outcome)

  datatype Code = AttemptLimit | Timeout | ResourceLimit | Exhausted

  datatype Step = Continue | Won(trial: Trial) | Halt(code: Code)

  datatype Limits = Limits(maxAttempts: nat, maxCombinations: nat)

  // How the discovery of a pin's candidates ended: having looked at every source, or at some of
  // them, what it yields being incomplete or the search stopped.
  datatype Discovery = Complete | Incomplete(looked: nat) | Stopped(looked: nat, code: Code)

  predicate AllSized(ts: seq<Tuple>, n: nat) { forall i :: 0 <= i < |ts| ==> |ts[i]| == n }

  // What the search is run on: the strict resolver, and which source offers which candidate.
  datatype Problem = Problem(pins: seq<Pin>, sources: seq<Source>, strict: Trial -> bool, offers: (nat, V, Source) -> bool)
  {
    ghost predicate Good() {
      GoodPins(pins) && forall i, j :: 0 <= i < j < |sources| ==> sources[i] != sources[j]
    }

    // The source offers every version that is not the original.
    predicate Supports(t: Tuple, source: Source)
      requires |t| == |pins|
    {
      forall i :: 0 <= i < |t| ==> t[i] == pins[i].original || offers(i, t[i], source)
    }

    function Viable(t: Tuple, n: nat): (r: seq<Source>)
      requires |t| == |pins| && n <= |sources|
    {
      if n == 0 then []
      else if Supports(t, sources[n - 1]) then Viable(t, n - 1) + [sources[n - 1]]
      else Viable(t, n - 1)
    }

    function TrialsOn(t: Tuple, on: seq<Source>, n: nat): seq<Trial>
      requires n <= |on|
    {
      if n == 0 then [] else TrialsOn(t, on, n - 1) + [Trial(t, on[n - 1])]
    }

    // The trials of one tuple: the sources that support it, in order.
    function TrialsOf(t: Tuple): seq<Trial>
      requires |t| == |pins|
    {
      var viable := Viable(t, |sources|);
      TrialsOn(t, viable, |viable|)
    }

    function Plan(ts: seq<Tuple>): seq<Trial>
      requires AllSized(ts, |pins|)
    {
      if |ts| == 0 then [] else Plan(ts[..|ts| - 1]) + TrialsOf(ts[|ts| - 1])
    }
  }

  function Trials(attempts: seq<Attempt>): seq<Trial> {
    seq(|attempts|, (i: nat) requires i < |attempts| => attempts[i].trial)
  }

  // The attempts tell the truth about the strict resolver.
  ghost predicate Honest(p: Problem, attempts: seq<Attempt>) {
    forall i :: 0 <= i < |attempts| && !attempts[i].outcome.TimedOut? ==>
      (attempts[i].outcome.Solved? <==> p.strict(attempts[i].trial))
  }

  ghost predicate AllRefused(attempts: seq<Attempt>) {
    forall i :: 0 <= i < |attempts| ==> attempts[i].outcome.Refused?
  }

  // A step goes through a piece of the plan: all of it, refused throughout; or up to the first
  // trial that is solved; or up to where it halts, with nothing solved.
  ghost predicate Through(p: Problem, step: Step, before: seq<Attempt>, after: seq<Attempt>, piece: seq<Trial>) {
    && before <= after && Honest(p, after) && AllRefused(before)
    && Trials(after) <= Trials(before) + piece
    && (match step
        case Continue => Trials(after) == Trials(before) + piece && AllRefused(after)
        case Won(trial) =>
          && |after| > |before| && AllRefused(after[..|after| - 1]) && after[|after| - 1] == Attempt(trial, Solved)
        case Halt(_) => forall i :: 0 <= i < |after| ==> !after[i].outcome.Solved?)
  }

  lemma ThroughNothing(p: Problem, attempts: seq<Attempt>)
    requires Honest(p, attempts) && AllRefused(attempts)
    ensures Through(p, Continue, attempts, attempts, [])
    ensures forall code, piece :: Through(p, Halt(code), attempts, attempts, piece)
  {
  }

  // After one piece, another.
  lemma ThroughBoth(p: Problem, step: Step, before: seq<Attempt>, middle: seq<Attempt>, after: seq<Attempt>,
                    first: seq<Trial>, second: seq<Trial>)
    requires Through(p, Continue, before, middle, first) && Through(p, step, middle, after, second)
    ensures Through(p, step, before, after, first + second)
  {
    assert Trials(before) + first + second == Trials(before) + (first + second);
  }

  // Ending early, it does not matter what would have come.
  lemma ThroughMore(p: Problem, step: Step, before: seq<Attempt>, after: seq<Attempt>, first: seq<Trial>, second: seq<Trial>)
    requires Through(p, step, before, after, first) && !step.Continue?
    ensures Through(p, step, before, after, first + second)
  {
    assert Trials(before) + first + second == Trials(before) + (first + second);
  }

  lemma OneTrial(p: Problem, before: seq<Attempt>, trial: Trial, outcome: Outcome, step: Step)
    requires Honest(p, before) && AllRefused(before)
    requires outcome.Solved? ==> p.strict(trial) && step == Won(trial)
    requires outcome.Refused? ==> !p.strict(trial) && step == Continue
    requires outcome.TimedOut? ==> step == Halt(Timeout)
    ensures Through(p, step, before, before + [Attempt(trial, outcome)], [trial])
  {
    assert Trials(before + [Attempt(trial, outcome)]) == Trials(before) + [trial];
    assert (before + [Attempt(trial, outcome)])[..|before|] == before;
  }

  lemma {:induction false} PlanConcat(p: Problem, a: seq<Tuple>, b: seq<Tuple>)
    requires AllSized(a + b, |p.pins|)
    ensures AllSized(a, |p.pins|) && AllSized(b, |p.pins|)
    ensures p.Plan(a + b) == p.Plan(a) + p.Plan(b)
  {
    assert forall i :: 0 <= i < |a| ==> (a + b)[i] == a[i];
    assert forall i :: 0 <= i < |b| ==> (a + b)[|a| + i] == b[i];
    if |b| == 0 {
      assert a + b == a;
    } else {
      assert (a + b)[..|a + b| - 1] == a + b[..|b| - 1];
      PlanConcat(p, a, b[..|b| - 1]);
    }
  }

  lemma {:induction false} ViableDistinct(p: Problem, t: Tuple, n: nat)
    requires p.Good() && |t| == |p.pins| && n <= |p.sources|
    ensures forall i, j :: 0 <= i < j < |p.Viable(t, n)| ==> p.Viable(t, n)[i] != p.Viable(t, n)[j]
    ensures forall s :: s in p.Viable(t, n) <==> exists i :: 0 <= i < n && p.sources[i] == s && p.Supports(t, s)
  {
    if n > 0 {
      ViableDistinct(p, t, n - 1);
    }
  }

  class Search {
    const problem: Problem
    const limits: Limits
    var attempts: seq<Attempt>
    var visited: nat
    var attempted: set<Trial>
    // How many more readings of the clock come before the deadline.
    var ticks: nat

    constructor (problem: Problem, limits: Limits, ticks: nat)
      ensures this.problem == problem && this.limits == limits && this.ticks == ticks
      ensures attempts == [] && visited == 0 && attempted == {}
    {
      this.problem, this.limits, this.ticks := problem, limits, ticks;
      attempts, visited, attempted := [], 0, {};
    }

    ghost predicate Valid()
      reads this
    {
      && problem.Good() && Honest(problem, attempts) && AllRefused(attempts)
      && |attempts| <= limits.maxAttempts && visited <= limits.maxCombinations
    }

    // Why a search may stop before its end.
    ghost predicate Justified(step: Step)
      reads this
    {
      && (step == Halt(Timeout) ==> ticks == 0)
      && (step == Halt(AttemptLimit) ==> |attempts| == limits.maxAttempts)
      && (step == Halt(ResourceLimit) ==> visited == limits.maxCombinations)
      && step != Halt(Exhausted)
    }

    // The readings left and those spent on attempts and visits: a combination costs one reading
    // and one for every source, an attempt two.
    ghost function Clock(): int
      reads this
    {
      ticks + 2 * |attempts| + Times(|problem.sources| + 1, visited)
    }

    // Having left from so many readings and attempts: while it goes on, every reading is accounted
    // for; and no attempt begins without one, nor ends in time without another.
    ghost predicate InTime(step: Step, clock: int, readings: nat, made: nat)
      reads this
    {
      && (step.Continue? ==> Clock() == clock)
      && ticks + 2 * |attempts| <= readings + 2 * made + (if step == Halt(Timeout) then 1 else 0)
    }

    method Late() returns (late: bool)
      modifies `ticks
      ensures late == (old(ticks) == 0) && ticks == (if late then 0 else old(ticks) - 1)
    {
      late := ticks == 0;
      if !late {
        ticks := ticks - 1;
      }
    }

    method Guard() returns (step: Step)
      requires Valid()
      modifies `ticks
      ensures Valid() && Justified(step) && !step.Won?
      ensures step == Halt(Timeout) <==> old(ticks) == 0
      ensures step == Halt(AttemptLimit) <==> old(ticks) > 0 && |attempts| == limits.maxAttempts
      ensures step.Continue? ==> |attempts| < limits.maxAttempts
      ensures ticks == if old(ticks) == 0 then 0 else old(ticks) - 1
    {
      var late := Late();
      if late {
        return Halt(Timeout);
      }
      if |attempts| >= limits.maxAttempts {
        return Halt(AttemptLimit);
      }
      return Continue;
    }

    // A call of the strict resolver; past the deadline its answer does not count.
    method Try(trial: Trial) returns (step: Step)
      requires Valid() && |attempts| < limits.maxAttempts
      modifies `attempts, `ticks
      ensures |attempts| <= limits.maxAttempts && Justified(step)
      ensures Through(problem, step, old(attempts), attempts, [trial])
      ensures |attempts| == |old(attempts)| + 1 && attempts[|old(attempts)|].trial == trial
      ensures attempts[|old(attempts)|].outcome.TimedOut? <==> old(ticks) == 0
      ensures step == Halt(Timeout) <==> old(ticks) == 0
      ensures ticks == if old(ticks) == 0 then 0 else old(ticks) - 1
    {
      var solved := problem.strict(trial);
      var late := Late();
      var outcome := if late then TimedOut else if solved then Solved else Refused;
      step := if late then Halt(Timeout) else if solved then Won(trial) else Continue;
      OneTrial(problem, attempts, trial, outcome, step);
      attempts := attempts + [Attempt(trial, outcome)];
    }

    // The sources worth trying.  Nothing is ever filtered out for having been attempted before.
    method FindViable(t: Tuple) returns (viable: seq<Source>, step: Step)
      requires Valid() && |t| == |problem.pins| && forall s :: Trial(t, s) !in attempted
      modifies `ticks
      ensures Valid() && Justified(step) && !step.Won?
      ensures step.Continue? ==> viable == problem.Viable(t, |problem.sources|) && ticks == old(ticks) - |problem.sources|
      ensures ticks <= old(ticks)
    {
      viable, step := [], Continue;
      var i: nat := 0;
      while i < |problem.sources|
        invariant i <= |problem.sources| && Valid() && viable == problem.Viable(t, i) && step.Continue?
        invariant ticks == old(ticks) - i
      {
        step := Guard();
        if !step.Continue? {
          return;
        }
        var source := problem.sources[i];
        if Trial(t, source) in attempted {
          assert false;
        } else if problem.Supports(t, source) {
          viable := viable + [source];
        }
        i := i + 1;
      }
    }

    // One trial, noted as attempted where the search keeps note of that.
    method TryOne(trial: Trial, noting: bool) returns (step: Step)
      requires Valid()
      modifies `ticks, `attempts, `attempted
      ensures |attempts| <= limits.maxAttempts && Justified(step)
      ensures attempted == if noting then old(attempted) + {trial} else old(attempted)
      ensures Through(problem, step, old(attempts), attempts, [trial])
      ensures InTime(step, old(Clock()), old(ticks), |old(attempts)|)
    {
      if noting {
        attempted := attempted + {trial};
      }
      ThroughNothing(problem, attempts);
      step := Guard();
      if step.Continue? {
        step := Try(trial);
      }
    }

    // One tuple on some sources.
    method TryEach(t: Tuple, on: seq<Source>, noting: bool) returns (step: Step)
      requires Valid()
      modifies `ticks, `attempts, `attempted
      ensures |attempts| <= limits.maxAttempts && Justified(step)
      ensures forall trial :: trial in attempted ==> trial in old(attempted) || (noting && trial.versions == t)
      ensures Through(problem, step, old(attempts), attempts, problem.TrialsOn(t, on, |on|))
      ensures InTime(step, old(Clock()), old(ticks), |old(attempts)|)
    {
      step := Continue;
      ghost var start := attempts;
      var i: nat := 0;
      ThroughNothing(problem, attempts);
      while i < |on|
        invariant i <= |on| && Valid() && step.Continue?
        invariant forall trial :: trial in attempted ==> trial in old(attempted) || (noting && trial.versions == t)
        invariant Through(problem, Continue, start, attempts, problem.TrialsOn(t, on, i))
        invariant InTime(Continue, old(Clock()), old(ticks), |old(attempts)|)
      {
        ghost var before := attempts;
        step := TryOne(Trial(t, on[i]), noting);
        NextTrial(problem, step, start, before, attempts, t, on, i);
        if !step.Continue? {
          return;
        }
        i := i + 1;
      }
    }

    // Only these tuples have been attempted.
    ghost predicate Seen(done: seq<Tuple>)
      reads this
    {
      forall trial :: trial in attempted ==> trial.versions in done
    }

    // One tuple: it counts as a combination whether or not any source offers it.
    method TryTuple(t: Tuple, ghost done: seq<Tuple>) returns (step: Step)
      requires Valid() && |t| == |problem.pins| && t !in done && Seen(done)
      modifies `ticks, `attempts, `attempted, `visited
      ensures |attempts| <= limits.maxAttempts && visited <= limits.maxCombinations && Justified(step)
      ensures Through(problem, step, old(attempts), attempts, problem.TrialsOf(t))
      ensures InTime(step, old(Clock()), old(ticks), |old(attempts)|)
      ensures step.Continue? ==> visited == old(visited) + 1 && Seen(done + [t])
    {
      ThroughNothing(problem, attempts);
      step := Guard();
      if !step.Continue? {
        return;
      }
      if visited >= limits.maxCombinations {
        return Halt(ResourceLimit);
      }
      visited := visited + 1;
      var viable;
      viable, step := FindViable(t);
      if !step.Continue? {
        return;
      }
      step := TryEach(t, viable, true);
    }

    // All candidates for one choice of the versions before them.
    method TryRow(prefix: Tuple, candidates: seq<V>, tail: Tuple, ghost done: seq<Tuple>) returns (step: Step)
      requires Valid() && |prefix| + 1 + |tail| == |problem.pins|
      requires Seen(done) && Distinct(done + Extend(Row(prefix, candidates), tail))
      modifies `ticks, `attempts, `attempted, `visited
      ensures |attempts| <= limits.maxAttempts && visited <= limits.maxCombinations && Justified(step)
      ensures AllSized(Extend(Row(prefix, candidates), tail), |problem.pins|)
      ensures Through(problem, step, old(attempts), attempts, problem.Plan(Extend(Row(prefix, candidates), tail)))
      ensures InTime(step, old(Clock()), old(ticks), |old(attempts)|)
      ensures step.Continue? ==>
        visited == old(visited) + |candidates| && Seen(done + Extend(Row(prefix, candidates), tail))
    {
      step := Continue;
      ghost var whole, start := Extend(Row(prefix, candidates), tail), attempts;
      RowShape(problem, prefix, candidates, tail);
      ThroughNothing(problem, attempts);
      assert done + whole[..0] == done;
      var j: nat := 0;
      while j < |candidates|
        invariant j <= |candidates| && Valid() && step.Continue?
        invariant visited == old(visited) + j && Seen(done + whole[..j])
        invariant InTime(Continue, old(Clock()), old(ticks), |old(attempts)|)
        invariant Through(problem, Continue, start, attempts, problem.Plan(whole[..j]))
      {
        var t := prefix + [candidates[j]] + tail;
        ghost var before := attempts;
        NextIsNew(done, whole, j);
        step := TryTuple(t, done + whole[..j]);
        PlanOfOne(problem, whole, j);
        Onwards(problem, step, start, before, attempts, whole, j, j + 1);
        if !step.Continue? {
          return;
        }
        j := j + 1;
      }
      assert whole[..j] == whole;
    }

    // So many tuples of a frontier have been gone through, from where the frontier began.
    ghost predicate GoneThrough(done: seq<Tuple>, whole: seq<Tuple>, at: nat, start: seq<Attempt>, clock: int, readings: nat, from: nat)
      reads this
      requires at <= |whole| && AllSized(whole, |problem.pins|)
    {
      && Valid() && visited == from + at && Seen(done + whole[..at])
      && Through(problem, Continue, start, attempts, problem.Plan(whole[..at]))
      && InTime(Continue, clock, readings, |start|)
    }

    // One row among those of a frontier, after the rows before it.
    method TryRowAt(prefixes: seq<Tuple>, i: nat, candidates: seq<V>, tail: Tuple, ghost done: seq<Tuple>, ghost whole: seq<Tuple>,
                    ghost start: seq<Attempt>, ghost clock: int, ghost readings: nat, ghost from: nat)
      returns (step: Step)
      requires i < |prefixes| && RowByRow(whole, prefixes, candidates, tail, |problem.pins|) && Distinct(done + whole)
      requires RowStart(|candidates|, i) <= |whole| && GoneThrough(done, whole, RowStart(|candidates|, i), start, clock, readings, from)
      modifies `ticks, `attempts, `attempted, `visited
      ensures |attempts| <= limits.maxAttempts && visited <= limits.maxCombinations && Justified(step)
      ensures RowStart(|candidates|, i + 1) == RowStart(|candidates|, i) + |candidates| <= |whole|
      ensures step.Continue? ==> GoneThrough(done, whole, RowStart(|candidates|, i + 1), start, clock, readings, from)
      ensures !step.Continue? ==>
        Through(problem, step, start, attempts, problem.Plan(whole)) && InTime(step, clock, readings, |start|)
    {
      ghost var at, before := RowStart(|candidates|, i), attempts;
      RowWithin(whole, prefixes, candidates, tail, |problem.pins|, i);
      PieceIsNew(done, whole, at, at + |candidates|);
      step := TryRow(prefixes[i], candidates, tail, done + whole[..at]);
      Onwards(problem, step, start, before, attempts, whole, at, at + |candidates|);
    }

    // Row after row: every choice of the versions before a pin, every candidate for it.
    method TryRows(prefixes: seq<Tuple>, candidates: seq<V>, tail: Tuple, ghost done: seq<Tuple>, ghost whole: seq<Tuple>)
      returns (step: Step)
      requires Valid() && RowByRow(whole, prefixes, candidates, tail, |problem.pins|)
      requires Seen(done) && Distinct(done + whole)
      modifies `ticks, `attempts, `attempted, `visited
      ensures |attempts| <= limits.maxAttempts && visited <= limits.maxCombinations && Justified(step)
      ensures Through(problem, step, old(attempts), attempts, problem.Plan(whole))
      ensures InTime(step, old(Clock()), old(ticks), |old(attempts)|)
      ensures step.Continue? ==> visited == old(visited) + |whole| && Seen(done + whole)
    {
      step := Continue;
      ghost var start, clock, readings, from := attempts, Clock(), ticks, visited;
      ThroughNothing(problem, attempts);
      assert done + whole[..0] == done;
      var i: nat := 0;
      while i < |prefixes|
        invariant i <= |prefixes| && step.Continue? && RowStart(|candidates|, i) <= |whole|
        invariant GoneThrough(done, whole, RowStart(|candidates|, i), start, clock, readings, from)
      {
        step := TryRowAt(prefixes, i, candidates, tail, done, whole, start, clock, readings, from);
        if !step.Continue? {
          return;
        }
        i := i + 1;
      }
      assert whole[..|whole|] == whole;
    }

    // The frontier at one pin.
    method TryFrontier(k: nat, ghost done: seq<Tuple>) returns (step: Step)
      requires Valid() && k < |problem.pins|
      requires Seen(done) && Distinct(done + Frontier(problem.pins, k))
      modifies `ticks, `attempts, `attempted, `visited
      ensures |attempts| <= limits.maxAttempts && visited <= limits.maxCombinations && Justified(step)
      ensures Through(problem, step, old(attempts), attempts, FrontierPlan(problem, k))
      ensures InTime(step, old(Clock()), old(ticks), |old(attempts)|)
      ensures step.Continue? ==>
        visited == old(visited) + |Frontier(problem.pins, k)| && Seen(done + Frontier(problem.pins, k))
    {
      var prefixes := Product(problem.pins[..k]);
      FrontierRowByRow(problem, k);
      step := TryRows(prefixes, problem.pins[k].candidates, Originals(problem.pins)[k + 1..], done, Frontier(problem.pins, k));
    }

    // The originals, on every source.
    method TryOriginals() returns (step: Step)
      requires Valid() && attempts == []
      modifies `ticks, `attempts, `attempted
      ensures |attempts| <= limits.maxAttempts && Justified(step) && attempted <= old(attempted)
      ensures Through(problem, step, [], attempts, PlanTo(problem, 0))
      ensures InTime(step, old(Clock()), old(ticks), |old(attempts)|)
    {
      OriginalsAreViable(problem, |problem.sources|);
      PlanToFirst(problem);
      step := TryEach(Originals(problem.pins), problem.sources, false);
    }

    // Looking at the sources for a pin's candidates, each after a reading of the clock.
    method Discover(find: Discovery) returns (step: Step)
      requires Valid()
      modifies `ticks
      ensures Valid() && (Justified(step) || Stops(find, step)) && !step.Won?
      ensures step.Continue? ==> !find.Stopped? && (find.Complete? ==> ticks == old(ticks) - |problem.sources|)
      ensures ticks <= old(ticks)
    {
      step := Continue;
      var looked := if find.Complete? || find.looked > |problem.sources| then |problem.sources| else find.looked;
      var i: nat := 0;
      while i < looked
        invariant i <= looked && Valid() && step.Continue? && ticks == old(ticks) - i
      {
        step := Guard();
        if !step.Continue? {
          return;
        }
        i := i + 1;
      }
      if find.Stopped? {
        step := Halt(find.code);
      }
    }

    // One pin: discover its candidates, then try its frontier; an incomplete discovery ends the
    // search, but only after what was discovered has been tried.
    method ResolvePin(k: nat, find: Discovery) returns (step: Step)
      requires Valid() && k < |problem.pins|
      requires Seen(Visits(problem.pins, k)) && visited == |Visits(problem.pins, k)|
      requires Through(problem, Continue, [], attempts, PlanTo(problem, k))
      modifies `ticks, `attempts, `attempted, `visited
      ensures |attempts| <= limits.maxAttempts && visited <= limits.maxCombinations
      ensures Justified(step) || Stops(find, step)
      ensures Through(problem, step, [], attempts, PlanTo(problem, k + 1))
      ensures step.Continue? ==> Seen(Visits(problem.pins, k + 1)) && visited == |Visits(problem.pins, k + 1)|
      ensures step.Continue? ==> find.Complete? && Clock() == old(Clock()) - (|problem.sources| + 1)
      ensures ticks + 2 * |attempts| <= old(ticks + 2 * |attempts|) + (if step == Halt(Timeout) then 1 else 0)
    {
      ghost var before := attempts;
      NextVisits(problem.pins, k);
      ThroughNothing(problem, attempts);
      step := Guard();
      if step.Continue? {
        step := Discover(find);
      }
      if !step.Continue? {
        NextPin(problem, step, before, attempts, k);
        return;
      }
      step := TryFrontier(k, Visits(problem.pins, k));
      NextPin(problem, step, before, attempts, k);
      if step.Continue? && find.Incomplete? {
        HaltHere(problem, ResourceLimit, [], attempts, PlanTo(problem, k + 1));
        step := Halt(ResourceLimit);
      }
    }

    // Where the search stands before a pin, having started with so many readings.
    ghost predicate StandsAt(finds: seq<Discovery>, step: Step, k: nat, readings: nat)
      reads this
    {
      && k <= |problem.pins| == |finds| && problem.Good() && step != Halt(Exhausted)
      && |attempts| <= limits.maxAttempts && visited <= limits.maxCombinations
      && Through(problem, step, [], attempts, PlanTo(problem, k))
      && (!step.Continue? ==> Justified(step) || StoppedBy(finds, step))
      && ticks + 2 * |attempts| <= readings + (if step == Halt(Timeout) then 1 else 0)
      && (step.Continue? ==>
            && Valid() && visited == |Visits(problem.pins, k)| && Seen(Visits(problem.pins, k))
            && (forall i :: 0 <= i < k ==> finds[i].Complete?)
            && Clock() + Times(|problem.sources| + 1, k) == readings)
    }

    method NextFrontier(finds: seq<Discovery>, k: nat, ghost readings: nat) returns (step: Step)
      requires k < |problem.pins| && StandsAt(finds, Continue, k, readings)
      requires forall find :: find in finds && find.Stopped? ==> !find.code.Exhausted?
      modifies `ticks, `attempts, `attempted, `visited
      ensures StandsAt(finds, step, k + 1, readings)
    {
      assert finds[k] in finds;
      step := ResolvePin(k, finds[k]);
    }

    // The originals and the frontiers, until a trial succeeds or the search must halt.
    method Explore(finds: seq<Discovery>) returns (step: Step, k: nat)
      requires problem.Good() && |finds| == |problem.pins|
      requires forall find :: find in finds && find.Stopped? ==> !find.code.Exhausted?
      requires attempts == [] && visited == 0 && attempted == {}
      modifies this
      ensures StandsAt(finds, step, k, old(ticks)) && (step.Continue? ==> k == |problem.pins|)
    {
      step := TryOriginals();
      k := 0;
      while k < |problem.pins| && step.Continue?
        invariant StandsAt(finds, step, k, old(ticks))
      {
        step := NextFrontier(finds, k, old(ticks));
        k := k + 1;
      }
    }

    // The whole search.  What it has attempted is always a beginning of the plan, and all of it
    // was refused except for the last trial of a success: so a success is the first trial of the
    // plan that the strict resolver accepts, and the search is exhausted only when it refused
    // every trial of the plan, having visited every combination, after complete discoveries, and
    // with every reading of the clock before the deadline.  No attempt begins after it, and none is
    // won but by an answer that came before.
    method Resolve(finds: seq<Discovery>) returns (step: Step)
      requires problem.Good() && |finds| == |problem.pins|
      requires forall find :: find in finds && find.Stopped? ==> !find.code.Exhausted?
      requires attempts == [] && visited == 0 && attempted == {}
      modifies this
      ensures |attempts| <= limits.maxAttempts && visited <= limits.maxCombinations && !step.Continue?
      ensures Verdict(problem, step, attempts, PlanTo(problem, |problem.pins|))
      ensures step == Halt(Exhausted) ==>
        && visited == Combinations(problem.pins) - 1 && Trials(attempts) == PlanTo(problem, |problem.pins|)
        && (forall i :: 0 <= i < |finds| ==> finds[i].Complete?)
        && old(ticks) == ticks + 2 * |attempts| + (|problem.sources| + 1) * (visited + |problem.pins|)
      ensures ticks + 2 * |attempts| <= old(ticks) + (if step == Halt(Timeout) then 1 else 0)
      ensures step.Halt? && !step.code.Exhausted? ==> Justified(step) || StoppedBy(finds, step)
    {
      var k;
      step, k := Explore(finds);
      if step.Continue? {
        WentThrough(finds, old(ticks));
        step := Halt(Exhausted);
      } else {
        PlanGrows(problem, k, |problem.pins|);
        VerdictOf(problem, step, attempts, PlanTo(problem, k), PlanTo(problem, |problem.pins|));
      }
    }

    lemma WentThrough(finds: seq<Discovery>, readings: nat)
      requires StandsAt(finds, Continue, |problem.pins|, readings)
      ensures Verdict(problem, Halt(Exhausted), attempts, PlanTo(problem, |problem.pins|))
      ensures visited == Combinations(problem.pins) - 1 && Trials(attempts) == PlanTo(problem, |problem.pins|)
      ensures readings == ticks + 2 * |attempts| + (|problem.sources| + 1) * (visited + |problem.pins|)
    {
      AllWereRefused(problem, attempts, PlanTo(problem, |problem.pins|));
      VerdictOf(problem, Continue, attempts, PlanTo(problem, |problem.pins|), PlanTo(problem, |problem.pins|));
      AllAreVisited(problem.pins);
      AllReadings(ticks + 2 * |attempts|, |problem.sources| + 1, visited, |problem.pins|);
    }
  }

  lemma OneMore(n: nat, k: nat)
    ensures n * (k + 1) == n * k + n
  {
  }

  // So much, so many times over.
  function Times(n: nat, k: nat): nat { if k == 0 then 0 else Times(n, k - 1) + n }

  lemma {:induction false} TimesIs(n: nat, k: nat)
    ensures Times(n, k) == n * k
  {
    if k > 0 {
      TimesIs(n, k - 1);
      OneMore(n, k - 1);
    }
  }

  lemma AllAreVisited(pins: seq<Pin>)
    requires GoodPins(pins)
    ensures |Visits(pins, |pins|)| == Combinations(pins) - 1
  {
    EveryChoiceOnce(pins);
  }

  lemma AllReadings(others: nat, n: nat, visited: nat, pins: nat)
    ensures others + Times(n, visited) + Times(n, pins) == others + n * (visited + pins)
  {
    TimesIs(n, visited);
    TimesIs(n, pins);
    assert n * (visited + pins) == n * visited + n * pins;
  }

  // Some lists, one behind the other.
  ghost function Flatten<T>(xs: seq<seq<T>>, n: nat): seq<T>
    requires n <= |xs|
  {
    if n == 0 then [] else Flatten(xs, n - 1) + xs[n - 1]
  }

  lemma {:induction false} FlattenGrows<T>(xs: seq<seq<T>>, m: nat, n: nat)
    requires m <= n <= |xs|
    ensures Flatten(xs, m) <= Flatten(xs, n)
    decreases n
  {
    if m < n {
      FlattenGrows(xs, m, n - 1);
    }
  }

  ghost function FrontierPlan(p: Problem, k: nat): seq<Trial>
    requires p.Good() && k < |p.pins|
  {
    FrontierShape(p, k);
    p.Plan(Frontier(p.pins, k))
  }

  ghost function Pieces(p: Problem): seq<seq<Trial>>
    requires p.Good()
  {
    [p.TrialsOf(Originals(p.pins))] + seq(|p.pins|, (k: nat) requires k < |p.pins| => FrontierPlan(p, k))
  }

  // The plan of the search up to the frontier of a pin: the originals, then the frontiers.
  ghost function PlanTo(p: Problem, k: nat): seq<Trial>
    requires p.Good() && k <= |p.pins|
  {
    Flatten(Pieces(p), k + 1)
  }

  lemma FlattenOne<T>(xs: seq<seq<T>>)
    requires |xs| > 0
    ensures Flatten(xs, 1) == xs[0]
  {
    assert Flatten(xs, 0) == [];
  }

  lemma FlattenNext<T>(xs: seq<seq<T>>, n: nat)
    requires n < |xs|
    ensures Flatten(xs, n + 1) == Flatten(xs, n) + xs[n]
  {
  }

  lemma PlanToFirst(p: Problem)
    requires p.Good()
    ensures PlanTo(p, 0) == p.TrialsOf(Originals(p.pins))
  {
    FlattenOne(Pieces(p));
  }

  lemma PlanToNext(p: Problem, k: nat)
    requires p.Good() && k < |p.pins|
    ensures PlanTo(p, k + 1) == PlanTo(p, k) + FrontierPlan(p, k)
  {
    FlattenNext(Pieces(p), k + 1);
  }

  lemma {:induction false} PlanToMembers(p: Problem, k: nat, trial: Trial)
    requires p.Good() && k <= |p.pins|
    ensures trial in PlanTo(p, k)
      <==> && (trial.versions == Originals(p.pins) || trial.versions in Visits(p.pins, k))
           && |trial.versions| == |p.pins| && trial.source in p.Viable(trial.versions, |p.sources|)
  {
    if k == 0 {
      PlanToFirst(p);
      var viable := p.Viable(Originals(p.pins), |p.sources|);
      TrialsOnMembers(p, Originals(p.pins), viable, |viable|, trial);
      assert viable[..|viable|] == viable;
    } else {
      PlanToMembers(p, k - 1, trial);
      PlanToNext(p, k - 1);
      FrontierShape(p, k - 1);
      PlanMembers(p, Frontier(p.pins, k - 1), trial);
    }
  }

  // The trials of the plan are the choices of versions, each on the sources that offer it.
  lemma PlanIs(p: Problem, trial: Trial)
    requires p.Good()
    ensures trial in PlanTo(p, |p.pins|)
      <==> && IsChoice(trial.versions, p.pins) && trial.source in p.sources
           && forall i :: 0 <= i < |p.pins| && trial.versions[i] != p.pins[i].original ==>
                p.offers(i, trial.versions[i], trial.source)
  {
    PlanToMembers(p, |p.pins|, trial);
    OriginalsAreAChoice(p.pins);
    EveryChoiceOnce(p.pins);
    if |trial.versions| == |p.pins| {
      ViableDistinct(p, trial.versions, |p.sources|);
    }
  }

  lemma PlanGrows(p: Problem, k: nat, n: nat)
    requires p.Good() && k <= n <= |p.pins|
    ensures PlanTo(p, k) <= PlanTo(p, n)
  {
    FlattenGrows(Pieces(p), k + 1, n + 1);
  }

  lemma OriginalsAreAChoice(pins: seq<Pin>)
    ensures IsChoice(Originals(pins), pins)
  {
    forall i | 0 <= i < |pins|
      ensures Originals(pins)[i] in Choices(pins[i])
    {
      assert Choices(pins[i])[0] == pins[i].original;
    }
  }

  lemma {:induction false} TrialsOnMembers(p: Problem, t: Tuple, on: seq<Source>, n: nat, trial: Trial)
    requires n <= |on|
    ensures trial in p.TrialsOn(t, on, n) <==> trial.versions == t && trial.source in on[..n]
  {
    if n > 0 {
      TrialsOnMembers(p, t, on, n - 1, trial);
      assert on[..n] == on[..n - 1] + [on[n - 1]];
    }
  }

  lemma {:induction false} PlanMembers(p: Problem, ts: seq<Tuple>, trial: Trial)
    requires AllSized(ts, |p.pins|)
    ensures trial in p.Plan(ts)
      <==> trial.versions in ts && trial.source in p.Viable(trial.versions, |p.sources|)
  {
    if |ts| > 0 {
      var n := |ts| - 1;
      assert ts == ts[..n] + [ts[n]];
      PlanMembers(p, ts[..n], trial);
      var viable := p.Viable(ts[n], |p.sources|);
      TrialsOnMembers(p, ts[n], viable, |viable|, trial);
      assert viable[..|viable|] == viable;
    }
  }

  // The discovery of a pin's candidates was cut short, or stopped the search itself.
  predicate Stops(find: Discovery, step: Step) {
    (find.Incomplete? && step == Halt(ResourceLimit)) || (find.Stopped? && step == Halt(find.code))
  }

  ghost predicate StoppedBy(finds: seq<Discovery>, step: Step) {
    exists i :: 0 <= i < |finds| && Stops(finds[i], step)
  }

  // What the end of a search says: what was attempted is a beginning of the plan; a success is
  // the first trial of the plan that the strict resolver accepts; exhaustion means that it accepts
  // none; and otherwise it accepted none that was attempted in time.
  ghost predicate Verdict(p: Problem, step: Step, attempts: seq<Attempt>, plan: seq<Trial>) {
    var tried := Trials(attempts);
    && tried <= plan
    && (match step
        case Won(trial) =>
          && |tried| > 0 && tried[|tried| - 1] == trial && p.strict(trial)
          && forall i :: 0 <= i < |tried| - 1 ==> !p.strict(tried[i])
        case Halt(code) =>
          && (forall i :: 0 <= i < |tried| && !attempts[i].outcome.TimedOut? ==> !p.strict(tried[i]))
          && (code.Exhausted? ==> forall i :: 0 <= i < |plan| ==> !p.strict(plan[i]))
        case Continue => false)
  }

  lemma VerdictOf(p: Problem, step: Step, attempts: seq<Attempt>, piece: seq<Trial>, plan: seq<Trial>)
    requires Through(p, step, [], attempts, piece) && piece <= plan && (step.Continue? ==> piece == plan)
    requires step != Halt(Exhausted)
    ensures Verdict(p, if step.Continue? then Halt(Exhausted) else step, attempts, plan)
  {
    if step.Continue? {
      AllWereRefused(p, attempts, plan);
    }
    if step.Won? {
      assert forall i :: 0 <= i < |attempts| - 1 ==> attempts[..|attempts| - 1][i] == attempts[i];
    }
  }

  lemma NextPin(p: Problem, step: Step, before: seq<Attempt>, after: seq<Attempt>, k: nat)
    requires p.Good() && k < |p.pins| && Through(p, Continue, [], before, PlanTo(p, k))
    requires Through(p, step, before, after, FrontierPlan(p, k))
    ensures Through(p, step, [], after, PlanTo(p, k + 1))
  {
    PlanToNext(p, k);
    ThroughBoth(p, step, [], before, after, PlanTo(p, k), FrontierPlan(p, k));
  }

  // Halting where everything so far was refused.
  lemma HaltHere(p: Problem, code: Code, before: seq<Attempt>, after: seq<Attempt>, piece: seq<Trial>)
    requires Through(p, Continue, before, after, piece)
    ensures Through(p, Halt(code), before, after, piece)
  {
  }

  lemma {:induction false} OriginalsAreViable(p: Problem, n: nat)
    requires n <= |p.sources|
    ensures |Originals(p.pins)| == |p.pins| && p.Viable(Originals(p.pins), n) == p.sources[..n]
    ensures n == |p.sources| ==> p.TrialsOf(Originals(p.pins)) == p.TrialsOn(Originals(p.pins), p.sources, n)
  {
    if n > 0 {
      OriginalsAreViable(p, n - 1);
    }
    if n == |p.sources| {
      assert p.sources[..n] == p.sources;
    }
  }

  lemma NextVisits(pins: seq<Pin>, k: nat)
    requires GoodPins(pins) && k < |pins|
    ensures Visits(pins, k + 1) == Visits(pins, k) + Frontier(pins, k) && Distinct(Visits(pins, k) + Frontier(pins, k))
  {
    VisitsDistinct(pins, k + 1);
  }

  lemma AllWereRefused(p: Problem, attempts: seq<Attempt>, plan: seq<Trial>)
    requires Through(p, Continue, [], attempts, plan)
    ensures Trials(attempts) == plan && forall i :: 0 <= i < |plan| ==> !p.strict(plan[i])
  {
    assert Trials(attempts) == plan by {
      assert Trials([]) == [];
    }
    forall i | 0 <= i < |plan|
      ensures !p.strict(plan[i])
    {
      assert plan[i] == attempts[i].trial;
    }
  }

  lemma PieceIsNew(done: seq<Tuple>, whole: seq<Tuple>, at: nat, next: nat)
    requires at <= next <= |whole| && Distinct(done + whole)
    ensures Distinct((done + whole[..at]) + whole[at..next])
    ensures (done + whole[..at]) + whole[at..next] == done + whole[..next]
  {
    var piece: seq<Tuple> := (done + whole[..at]) + whole[at..next];
    var all: seq<Tuple> := done + whole;
    assert piece == done + whole[..next];
    assert forall i :: 0 <= i < |piece| ==> piece[i] == all[i];
  }

  lemma NextIsNew(done: seq<Tuple>, whole: seq<Tuple>, j: nat)
    requires j < |whole| && Distinct(done + whole)
    ensures whole[j] !in done + whole[..j]
    ensures (done + whole[..j]) + [whole[j]] == done + whole[..j + 1]
  {
    var all: seq<Tuple> := done + whole;
    var before: seq<Tuple> := done + whole[..j];
    assert all[|before|] == whole[j];
    assert forall i :: 0 <= i < |before| ==> before[i] == all[i];
  }

  lemma RowShape(p: Problem, prefix: Tuple, candidates: seq<V>, tail: Tuple)
    requires |prefix| + 1 + |tail| == |p.pins|
    ensures var row := Extend(Row(prefix, candidates), tail);
      && |row| == |candidates| && (forall j :: 0 <= j < |row| ==> row[j] == prefix + [candidates[j]] + tail)
      && AllSized(row, |p.pins|)
  {
  }

  lemma PlanPiece(p: Problem, whole: seq<Tuple>, at: nat, next: nat)
    requires at <= next <= |whole| && AllSized(whole, |p.pins|)
    ensures p.Plan(whole[..next]) == p.Plan(whole[..at]) + p.Plan(whole[at..next])
  {
    assert whole[..next] == whole[..at] + whole[at..next];
    PlanConcat(p, whole[..at], whole[at..next]);
  }

  // Where a row begins, all rows being equally long.
  function RowStart(n: nat, i: nat): nat { if i == 0 then 0 else RowStart(n, i - 1) + n }

  lemma {:induction false} RowStartIs(n: nat, i: nat)
    ensures RowStart(n, i) == i * n
  {
    if i > 0 {
      RowStartIs(n, i - 1);
      assert i * n == (i - 1) * n + n;
    }
  }

  // The tuples of a frontier, row by row.
  lemma FrontierShape(p: Problem, k: nat)
    requires p.Good() && k < |p.pins|
    ensures |Frontier(p.pins, k)| == RowStart(|p.pins[k].candidates|, |Product(p.pins[..k])|)
    ensures AllSized(Frontier(p.pins, k), |p.pins|)
  {
    assert p.pins[..k + 1][..k] == p.pins[..k];
    RowsLength(Product(p.pins[..k]), p.pins[k].candidates);
    RowStartIs(|p.pins[k].candidates|, |Product(p.pins[..k])|);
    forall t | t in Frontier(p.pins, k)
      ensures |t| == |p.pins|
    {
      FrontierIs(p.pins, k, t);
    }
  }

  lemma {:induction false} RowsAt(prefixes: seq<Tuple>, cs: seq<V>, i: nat, j: nat)
    requires i < |prefixes| && j < |cs|
    ensures i * |cs| + j < |Rows(prefixes, cs)| && Rows(prefixes, cs)[i * |cs| + j] == prefixes[i] + [cs[j]]
    decreases |prefixes|
  {
    var n := |prefixes| - 1;
    RowsLength(prefixes, cs);
    RowsLength(prefixes[..n], cs);
    if i < n {
      RowsAt(prefixes[..n], cs, i, j);
    }
  }

  // A list of tuples that is made of one row for every prefix.
  ghost predicate RowByRow(whole: seq<Tuple>, prefixes: seq<Tuple>, cs: seq<V>, tail: Tuple, n: nat) {
    && |whole| == RowStart(|cs|, |prefixes|) && AllSized(whole, n)
    && forall i :: 0 <= i < |prefixes| ==> |prefixes[i]| + 1 + |tail| == n && IsRow(whole, prefixes[i], cs, tail, RowStart(|cs|, i))
  }

  ghost predicate IsRow(whole: seq<Tuple>, prefix: Tuple, cs: seq<V>, tail: Tuple, at: nat) {
    at + |cs| <= |whole| && whole[at..at + |cs|] == Extend(Row(prefix, cs), tail)
  }

  lemma RowWithin(whole: seq<Tuple>, prefixes: seq<Tuple>, cs: seq<V>, tail: Tuple, n: nat, i: nat)
    requires RowByRow(whole, prefixes, cs, tail, n) && i < |prefixes|
    ensures |prefixes[i]| + 1 + |tail| == n && IsRow(whole, prefixes[i], cs, tail, RowStart(|cs|, i))
    ensures RowStart(|cs|, i + 1) == RowStart(|cs|, i) + |cs|
  {
  }

  lemma RowBounds(i: nat, m: nat, n: nat)
    requires i < m
    ensures RowStart(n, i) == i * n && RowStart(n, i) + n <= RowStart(n, m)
  {
    RowStartIs(n, i);
    RowStartIs(n, m);
    assert m * n == (i + 1) * n + (m - i - 1) * n;
    assert (i + 1) * n == i * n + n;
  }

  lemma FrontierRow(p: Problem, k: nat, i: nat)
    requires p.Good() && k < |p.pins| && i < |Product(p.pins[..k])|
    ensures IsRow(Frontier(p.pins, k), Product(p.pins[..k])[i], p.pins[k].candidates, Originals(p.pins)[k + 1..],
                  RowStart(|p.pins[k].candidates|, i))
  {
    var prefixes, cs := Product(p.pins[..k]), p.pins[k].candidates;
    assert p.pins[..k + 1][..k] == p.pins[..k];
    RowBounds(i, |prefixes|, |cs|);
    RowsLength(prefixes, cs);
    RowStartIs(|cs|, |prefixes|);
    forall j | 0 <= j < |cs|
      ensures i * |cs| + j < |Rows(prefixes, cs)| && Rows(prefixes, cs)[i * |cs| + j] == prefixes[i] + [cs[j]]
    {
      RowsAt(prefixes, cs, i, j);
    }
    SameRows(Rows(prefixes, cs), prefixes[i], cs, i * |cs|, Originals(p.pins)[k + 1..]);
  }

  lemma PrefixLength(p: Problem, k: nat, i: nat)
    requires p.Good() && k < |p.pins| && i < |Product(p.pins[..k])|
    ensures |Product(p.pins[..k])[i]| == k
  {
    ProductIs(p.pins[..k]);
    assert Product(p.pins[..k])[i] in Product(p.pins[..k]);
  }

  lemma FrontierRowByRow(p: Problem, k: nat)
    requires p.Good() && k < |p.pins|
    ensures RowByRow(Frontier(p.pins, k), Product(p.pins[..k]), p.pins[k].candidates, Originals(p.pins)[k + 1..], |p.pins|)
  {
    FrontierShape(p, k);
    forall i | 0 <= i < |Product(p.pins[..k])|
      ensures |Product(p.pins[..k])[i]| == k
      ensures IsRow(Frontier(p.pins, k), Product(p.pins[..k])[i], p.pins[k].candidates, Originals(p.pins)[k + 1..],
                    RowStart(|p.pins[k].candidates|, i))
    {
      PrefixLength(p, k, i);
      FrontierRow(p, k, i);
    }
  }

  lemma SameRows(rows: seq<Tuple>, prefix: Tuple, cs: seq<V>, at: nat, tail: Tuple)
    requires at + |cs| <= |rows| && forall j :: 0 <= j < |cs| ==> rows[at + j] == prefix + [cs[j]]
    ensures Extend(rows, tail)[at..at + |cs|] == Extend(Row(prefix, cs), tail)
  {
  }

  lemma PlanOfOne(p: Problem, ts: seq<Tuple>, j: nat)
    requires j < |ts| && AllSized(ts, |p.pins|)
    ensures p.Plan(ts[j..j + 1]) == p.TrialsOf(ts[j])
  {
    var one := ts[j..j + 1];
    assert one == [ts[j]] && one[..0] == [];
    assert p.Plan([]) == [];
  }

  // From a first part of a list of tuples to a longer one, or out of it.
  lemma Onwards(p: Problem, step: Step, start: seq<Attempt>, before: seq<Attempt>, after: seq<Attempt>,
                whole: seq<Tuple>, at: nat, next: nat)
    requires at <= next <= |whole| && AllSized(whole, |p.pins|)
    requires Through(p, Continue, start, before, p.Plan(whole[..at]))
    requires Through(p, step, before, after, p.Plan(whole[at..next]))
    ensures step.Continue? ==> Through(p, Continue, start, after, p.Plan(whole[..next]))
    ensures !step.Continue? ==> Through(p, step, start, after, p.Plan(whole))
  {
    PlanPiece(p, whole, at, next);
    ThroughBoth(p, step, start, before, after, p.Plan(whole[..at]), p.Plan(whole[at..next]));
    if !step.Continue? {
      PlanPiece(p, whole, next, |whole|);
      assert whole[..|whole|] == whole;
      ThroughMore(p, step, start, after, p.Plan(whole[..next]), p.Plan(whole[next..|whole|]));
    }
  }

  lemma NextTrial(p: Problem, step: Step, start: seq<Attempt>, before: seq<Attempt>, after: seq<Attempt>,
                  t: Tuple, on: seq<Source>, i: nat)
    requires i < |on| && Through(p, Continue, start, before, p.TrialsOn(t, on, i))
    requires Through(p, step, before, after, [Trial(t, on[i])])
    ensures step.Continue? ==> Through(p, Continue, start, after, p.TrialsOn(t, on, i + 1))
    ensures !step.Continue? ==> Through(p, step, start, after, p.TrialsOn(t, on, |on|))
  {
    ThroughBoth(p, step, start, before, after, p.TrialsOn(t, on, i), [Trial(t, on[i])]);
    if !step.Continue? {
      var first, all := p.TrialsOn(t, on, i + 1), p.TrialsOn(t, on, |on|);
      TrialsOnGrow(p, t, on, i + 1, |on|);
      ThroughMore(p, step, start, after, first, all[|first|..]);
      assert first + all[|first|..] == all;
    }
  }

  lemma {:induction false} TrialsOnGrow(p: Problem, t: Tuple, on: seq<Source>, m: nat, n: nat)
    requires m <= n <= |on|
    ensures p.TrialsOn(t, on, m) <= p.TrialsOn(t, on, n)
    decreases n
  {
    if m < n {
      TrialsOnGrow(p, t, on, m, n - 1);
    }
  }
}
