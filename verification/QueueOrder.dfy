/**
  The order in which the queue hands out its records: what peeking finds in any state, and that
  with peeked records completed or moved, the three lanes are three first-in first-out lists.
 */
module QueueOrder {
  import opened Options
  import opened QueueModel
  import opened QueueAccounting
  import opened QueueRecovery

  // ---------------------------------------------------------------- walking around the ring

  // The cursor i places after h.
  function At(h: nat, i: nat, capacity: nat): nat
    requires h < capacity && i <= capacity
  {
    if h + i < capacity then h + i else h + i - capacity
  }

  // The occupied slots met in the given number of places, starting at a cursor.
  function Walk(slots: map<Slot, Record>, capacity: nat, lane: Lane, cursor: nat, left: nat): (w: seq<Slot>)
    requires capacity > 0
    ensures forall s :: s in w ==> s in slots && s.lane == lane
    decreases left
  {
    if left == 0 then []
    else
      var rest := Walk(slots, capacity, lane, Next(cursor, capacity), left - 1);
      if Slot(lane, cursor) in slots then [Slot(lane, cursor)] + rest else rest
  }

  lemma {:induction false} WalkSplits(slots: map<Slot, Record>, capacity: nat, lane: Lane, cursor: nat, a: nat, b: nat)
    requires cursor < capacity && a <= capacity
    ensures Walk(slots, capacity, lane, cursor, a + b)
      == Walk(slots, capacity, lane, cursor, a) + Walk(slots, capacity, lane, At(cursor, a, capacity), b)
    decreases a
  {
    if a > 0 {
      NextIs(cursor, capacity);
      WalkSplits(slots, capacity, lane, Next(cursor, capacity), a - 1, b);
    }
  }

  function Sizes(slots: map<Slot, Record>, w: seq<Slot>): nat
    requires forall s :: s in w ==> s in slots
  {
    if |w| == 0 then 0 else slots[w[0]].size + Sizes(slots, w[1..])
  }

  lemma {:induction false} SizesConcat(slots: map<Slot, Record>, v: seq<Slot>, w: seq<Slot>)
    requires forall s :: s in v + w ==> s in slots
    ensures (forall s :: s in v ==> s in slots) && (forall s :: s in w ==> s in slots)
    ensures Sizes(slots, v + w) == Sizes(slots, v) + Sizes(slots, w)
  {
    assert forall s :: s in v || s in w ==> s in v + w;
    if |v| == 0 {
      assert v + w == w;
    } else {
      assert (v + w)[1..] == v[1..] + w;
      SizesConcat(slots, v[1..], w);
    }
  }

  // A walk that does not wrap meets what the plain count over the same cursors counts.
  lemma {:induction false} StraightWalk(slots: map<Slot, Record>, capacity: nat, lane: Lane, cursor: nat, left: nat)
    requires capacity > 0 && cursor + left <= capacity
    ensures var w := Walk(slots, capacity, lane, cursor, left);
      && |w| + CountUpTo(slots, lane, cursor) == CountUpTo(slots, lane, cursor + left)
      && Sizes(slots, w) + BytesUpTo(slots, lane, cursor) == BytesUpTo(slots, lane, cursor + left)
    decreases left
  {
    if left > 0 {
      NextIs(cursor, capacity);
      if left > 1 {
        StraightWalk(slots, capacity, lane, Next(cursor, capacity), left - 1);
      }
      var w := Walk(slots, capacity, lane, cursor, left);
      var rest := Walk(slots, capacity, lane, Next(cursor, capacity), left - 1);
      if Slot(lane, cursor) in slots {
        assert w[1..] == rest;
      }
    }
  }

  // Once around the ring, from wherever, meets every record of the lane.
  lemma FullWalk(slots: map<Slot, Record>, capacity: nat, lane: Lane, head: nat)
    requires head < capacity
    ensures var w := Walk(slots, capacity, lane, head, capacity);
      |w| == CountUpTo(slots, lane, capacity) && Sizes(slots, w) == BytesUpTo(slots, lane, capacity)
  {
    WalkSplits(slots, capacity, lane, head, capacity - head, head);
    StraightWalk(slots, capacity, lane, head, capacity - head);
    StraightWalk(slots, capacity, lane, 0, head);
    SizesConcat(slots, Walk(slots, capacity, lane, head, capacity - head), Walk(slots, capacity, lane, 0, head));
  }

  // It meets them in the order of their distance from the start, each once.
  lemma {:induction false} WalkIsOrdered(slots: map<Slot, Record>, capacity: nat, lane: Lane, cursor: nat, left: nat)
    requires cursor < capacity && left <= capacity
    ensures var w := Walk(slots, capacity, lane, cursor, left);
      && (forall s :: s in w <==> s in slots && s.lane == lane && s.cursor < capacity && Distance(cursor, s.cursor, capacity) < left)
      && (forall i, j :: 0 <= i < j < |w| ==>
            Distance(cursor, w[i].cursor, capacity) < Distance(cursor, w[j].cursor, capacity))
    decreases left
  {
    if left > 0 {
      var next := Next(cursor, capacity);
      NextIs(cursor, capacity);
      WalkIsOrdered(slots, capacity, lane, next, left - 1);
      var rest := Walk(slots, capacity, lane, next, left - 1);
      forall c | 0 <= c < capacity && c != cursor
        ensures Distance(cursor, c, capacity) == Distance(next, c, capacity) + 1
      {
      }
      assert Distance(next, cursor, capacity) == capacity - 1;
      assert Slot(lane, cursor) !in rest;
      forall s | s in slots && s.lane == lane && s.cursor == cursor
        ensures s == Slot(lane, cursor)
      {
      }
    }
  }

  // ---------------------------------------------------------------- peeking

  // The ring search: the first occupied slot from the cursor on.
  function FindItem(slots: map<Slot, Record>, capacity: nat, lane: Lane, cursor: nat, left: nat): Option<Slot>
    requires capacity > 0
    decreases left
  {
    if left == 0 then None
    else if Slot(lane, cursor) in slots then Some(Slot(lane, cursor))
    else FindItem(slots, capacity, lane, Next(cursor, capacity), left - 1)
  }

  lemma {:induction false} FindItemIsFirst(slots: map<Slot, Record>, capacity: nat, lane: Lane, cursor: nat, left: nat)
    requires capacity > 0
    ensures var w := Walk(slots, capacity, lane, cursor, left);
      FindItem(slots, capacity, lane, cursor, left) == if |w| == 0 then None else Some(w[0])
    decreases left
  {
    if left > 0 && Slot(lane, cursor) !in slots {
      FindItemIsFirst(slots, capacity, lane, Next(cursor, capacity), left - 1);
    }
  }

  // What a lane holds, in the order in which it hands it out.
  function Line(d: Disk, capacity: nat, lane: Lane): seq<Slot>
    requires capacity > 0
  {
    Walk(d.slots, capacity, lane, d.summary.Of(lane).head, capacity)
  }

  // While the summary tells the truth a peek at a lane that is not empty finds a record at once,
  // so the rebuild within a peek is never needed.
  lemma PeekFinds(d: Disk, lim: Limits, lane: Lane)
    requires Accurate(d, lim)
    ensures var line := Line(d, lim.capacity, lane);
      && |line| == d.summary.Of(lane).count
      && FindItem(d.slots, lim.capacity, lane, d.summary.Of(lane).head, lim.capacity)
         == if d.summary.Of(lane).count == 0 then None else Some(line[0])
  {
    assert LaneAccurate(d, lim, lane);
    FullWalk(d.slots, lim.capacity, lane, d.summary.Of(lane).head);
    FindItemIsFirst(d.slots, lim.capacity, lane, d.summary.Of(lane).head, lim.capacity);
  }

  lemma {:induction false} WalkWithout(slots: map<Slot, Record>, slot: Slot, capacity: nat, lane: Lane, cursor: nat, left: nat)
    requires capacity > 0 && slot !in Walk(slots, capacity, lane, cursor, left)
    ensures Walk(slots - {slot}, capacity, lane, cursor, left) == Walk(slots, capacity, lane, cursor, left)
    decreases left
  {
    if left > 0 {
      assert Slot(lane, cursor) in slots ==> Slot(lane, cursor) in Walk(slots, capacity, lane, cursor, left);
      WalkWithout(slots, slot, capacity, lane, Next(cursor, capacity), left - 1);
    }
  }

  lemma RotatedLine(slots: map<Slot, Record>, slot: Slot, capacity: nat, h: nat)
    requires slot in slots && slot.cursor < capacity && h < capacity
    ensures var k := Distance(h, slot.cursor, capacity);
      var u := Walk(slots, capacity, slot.lane, h, k);
      var v := Walk(slots, capacity, slot.lane, Next(slot.cursor, capacity), capacity - k - 1);
      && Walk(slots, capacity, slot.lane, h, capacity) == u + [slot] + v
      && Walk(slots - {slot}, capacity, slot.lane, Next(slot.cursor, capacity), capacity) == v + u
  {
    var lane, c, less := slot.lane, slot.cursor, slots - {slot};
    var k := Distance(h, c, capacity);
    var n, m := Next(c, capacity), capacity - k - 1;
    NextIs(c, capacity);
    WalkSplits(slots, capacity, lane, h, k, 1 + m);
    assert slot == Slot(lane, c) && At(h, k, capacity) == c && At(n, m, capacity) == h;
    WalkSplits(less, capacity, lane, n, m, k + 1);
    WalkSplits(less, capacity, lane, h, k, 1);
    assert Walk(less, capacity, lane, c, 1) == [];
    WalkIsOrdered(slots, capacity, lane, h, k);
    WalkIsOrdered(slots, capacity, lane, n, m);
    WalkWithout(slots, slot, capacity, lane, h, k);
    WalkWithout(slots, slot, capacity, lane, n, m);
  }

  // Whatever record of a lane is completed, the line goes on with those that were behind it, and
  // those that were before it come last.
  lemma CompleteRotates(d: Disk, lim: Limits, slot: Slot)
    requires Accurate(d, lim) && slot in d.slots
    ensures var line := Line(d, lim.capacity, slot.lane);
      var after := Line(Run(d, CompleteOps(d, lim, slot)), lim.capacity, slot.lane);
      exists i :: 0 <= i < |line| && line[i] == slot && after == line[i + 1..] + line[..i]
  {
    assert LaneAccurate(d, lim, slot.lane);
    CompleteEffect(d, lim, slot);
    var h := d.summary.Of(slot.lane).head;
    RotatedLine(d.slots, slot, lim.capacity, h);
    var line, k := Line(d, lim.capacity, slot.lane), Distance(h, slot.cursor, lim.capacity);
    var u := Walk(d.slots, lim.capacity, slot.lane, h, k);
    assert line[|u|] == slot && line[..|u|] == u;
  }

  predicate IsDue(r: Record, now: nat) { r.dueAt.None? || r.dueAt.value <= now }

  datatype Due = Due(item: Option<Slot>, inspected: nat, rebuild: bool)

  function DueFrom(slots: map<Slot, Record>, capacity: nat, lane: Lane, cursor: nat, left: nat,
                   now: nat, inspected: nat, limit: nat): Due
    requires capacity > 0
    decreases left
  {
    var slot := Slot(lane, cursor);
    if left == 0 then Due(None, inspected, true)
    else if slot !in slots then DueFrom(slots, capacity, lane, Next(cursor, capacity), left - 1, now, inspected, limit)
    else if IsDue(slots[slot], now) then Due(Some(slot), inspected + 1, false)
    else if inspected + 1 >= limit then Due(None, inspected + 1, false)
    else DueFrom(slots, capacity, lane, Next(cursor, capacity), left - 1, now, inspected + 1, limit)
  }

  function Least(a: nat, b: nat): nat { if a < b then a else b }

  function PeekDue(d: Disk, capacity: nat, lane: Lane, now: nat, maxRecords: nat): Due
    requires capacity > 0
  {
    var l := d.summary.Of(lane);
    if maxRecords == 0 || l.count == 0 then Due(None, 0, false)
    else DueFrom(d.slots, capacity, lane, l.head, capacity, now, 0, Least(maxRecords, l.count))
  }

  // The first due record among the first m of a line, or that none of them is due.
  ghost predicate FirstDue(slots: map<Slot, Record>, line: seq<Slot>, m: nat, now: nat, item: Option<Slot>, seen: nat)
    requires m <= |line| && forall s :: s in line ==> s in slots
  {
    && seen <= m
    && (item.Some? ==> 0 < seen && item.value == line[seen - 1] && IsDue(slots[line[seen - 1]], now))
    && (item.None? ==> seen == m)
    && (forall j: nat :: j < (if item.Some? then seen - 1 else seen) ==> !IsDue(slots[line[j]], now))
  }

  lemma {:induction false} DueFromIsFirst(slots: map<Slot, Record>, capacity: nat, lane: Lane, cursor: nat, left: nat,
                                          now: nat, inspected: nat, limit: nat)
    requires capacity > 0 && inspected < limit
    requires limit - inspected <= |Walk(slots, capacity, lane, cursor, left)|
    ensures var r := DueFrom(slots, capacity, lane, cursor, left, now, inspected, limit);
      && !r.rebuild && r.inspected >= inspected
      && FirstDue(slots, Walk(slots, capacity, lane, cursor, left), limit - inspected, now, r.item, r.inspected - inspected)
    decreases left
  {
    var slot := Slot(lane, cursor);
    var w := Walk(slots, capacity, lane, cursor, left);
    var rest := Walk(slots, capacity, lane, Next(cursor, capacity), left - 1);
    if slot !in slots {
      DueFromIsFirst(slots, capacity, lane, Next(cursor, capacity), left - 1, now, inspected, limit);
    } else if !IsDue(slots[slot], now) && inspected + 1 < limit {
      DueFromIsFirst(slots, capacity, lane, Next(cursor, capacity), left - 1, now, inspected + 1, limit);
      assert w == [slot] + rest;
      var r := DueFrom(slots, capacity, lane, cursor, left, now, inspected, limit);
      forall j: nat | j < (if r.item.Some? then r.inspected - inspected - 1 else r.inspected - inspected)
        ensures !IsDue(slots[w[j]], now)
      {
        assert w[j] == if j == 0 then slot else rest[j - 1];
      }
    }
  }

  // What once around the ring does not find due, nowhere in the lane is.
  lemma NoneInLine(slots: map<Slot, Record>, capacity: nat, lane: Lane, head: nat, now: nat)
    requires head < capacity && Addressed(slots, capacity)
    requires var line := Walk(slots, capacity, lane, head, capacity);
      forall j: nat :: j < |line| ==> !IsDue(slots[line[j]], now)
    ensures forall s :: s in slots && s.lane == lane ==> !IsDue(slots[s], now)
  {
    var line := Walk(slots, capacity, lane, head, capacity);
    WalkIsOrdered(slots, capacity, lane, head, capacity);
    forall s | s in slots && s.lane == lane
      ensures !IsDue(slots[s], now)
    {
      assert s in line;
      var j: nat :| j < |line| && line[j] == s;
    }
  }

  // A peek for due records looks at no more than it may, and returns the first due record among
  // those, in the order of the line; nothing, only when none of them is due.  When it may look at
  // as many records as the lane holds, nothing means that nothing in the lane is due.
  lemma PeekDueIsFirst(d: Disk, lim: Limits, lane: Lane, now: nat, maxRecords: nat)
    requires Accurate(d, lim)
    ensures var line := Line(d, lim.capacity, lane);
      var r := PeekDue(d, lim.capacity, lane, now, maxRecords);
      && !r.rebuild && r.inspected <= maxRecords && |line| == d.summary.Of(lane).count
      && FirstDue(d.slots, line, Least(maxRecords, |line|), now, r.item, r.inspected)
      && (r.item.None? && maxRecords >= |line| ==>
            forall s :: s in d.slots && s.lane == lane ==> !IsDue(d.slots[s], now))
  {
    var l := d.summary.Of(lane);
    assert LaneAccurate(d, lim, lane);
    var line := Line(d, lim.capacity, lane);
    FullWalk(d.slots, lim.capacity, lane, l.head);
    if maxRecords > 0 && l.count > 0 {
      DueFromIsFirst(d.slots, lim.capacity, lane, l.head, lim.capacity, now, 0, Least(maxRecords, l.count));
    }
    var r := PeekDue(d, lim.capacity, lane, now, maxRecords);
    if r.item.None? && maxRecords >= |line| {
      NoneInLine(d.slots, lim.capacity, lane, l.head, now);
    }
  }

  // Looking on, a peek finds what it was to look at, something due before that, or the end of the
  // line without either.
  lemma {:induction false} DueFromRebuildsIff(slots: map<Slot, Record>, capacity: nat, lane: Lane, cursor: nat, left: nat,
                                              now: nat, inspected: nat, limit: nat)
    requires capacity > 0 && inspected < limit
    ensures var line := Walk(slots, capacity, lane, cursor, left);
      DueFrom(slots, capacity, lane, cursor, left, now, inspected, limit).rebuild
      <==> |line| < limit - inspected && forall s :: s in line ==> !IsDue(slots[s], now)
    decreases left
  {
    var slot := Slot(lane, cursor);
    var w := Walk(slots, capacity, lane, cursor, left);
    if left > 0 {
      var rest := Walk(slots, capacity, lane, Next(cursor, capacity), left - 1);
      if slot !in slots {
        DueFromRebuildsIff(slots, capacity, lane, Next(cursor, capacity), left - 1, now, inspected, limit);
      } else {
        assert w == [slot] + rest && slot in w;
        if !IsDue(slots[slot], now) && inspected + 1 < limit {
          DueFromRebuildsIff(slots, capacity, lane, Next(cursor, capacity), left - 1, now, inspected + 1, limit);
        }
      }
    }
  }

  // A peek for due records asks for a rebuild exactly if the lane holds fewer records than the
  // summary says and the peek may look at, and none of them is due.
  lemma PeekDueRebuildsIff(d: Disk, capacity: nat, lane: Lane, now: nat, maxRecords: nat)
    requires capacity > 0
    ensures var line := Line(d, capacity, lane);
      PeekDue(d, capacity, lane, now, maxRecords).rebuild
      <==> |line| < maxRecords && |line| < d.summary.Of(lane).count && forall s :: s in line ==> !IsDue(d.slots[s], now)
  {
    var l := d.summary.Of(lane);
    if maxRecords > 0 && l.count > 0 {
      DueFromRebuildsIff(d.slots, capacity, lane, l.head, capacity, now, 0, Least(maxRecords, l.count));
    }
  }

  // ---------------------------------------------------------------- a lane filled in order

  // The lane's records lie without a gap from the head on, oldest first, and the write cursor
  // is just behind them.
  ghost predicate Ring(slots: map<Slot, Record>, lane: Lane, l: LaneState, capacity: nat) {
    && l.head < capacity && l.count <= capacity
    && (forall c :: 0 <= c < capacity ==> (Slot(lane, c) in slots <==> Distance(l.head, c, capacity) < l.count))
    && (forall c, c' :: 0 <= c < capacity && 0 <= c' < capacity
          && Distance(l.head, c, capacity) < Distance(l.head, c', capacity) < l.count
          ==> slots[Slot(lane, c)].sequence < slots[Slot(lane, c')].sequence)
    && (l.count > 0 ==> l.write == At(l.head, l.count, capacity))
  }

  ghost predicate InOrder(d: Disk, lim: Limits, lane: Lane) {
    Ring(d.slots, lane, d.summary.Of(lane), lim.capacity)
  }

  ghost predicate AllInOrder(d: Disk, lim: Limits) {
    && Accurate(d, lim) && IdsDistinct(d.slots)
    && InOrder(d, lim, Ready) && InOrder(d, lim, Deferred) && InOrder(d, lim, Held)
  }

  function Stretch(lane: Lane, h: nat, n: nat, capacity: nat): seq<Slot>
    requires h < capacity && n <= capacity
  {
    seq(n, (i: nat) requires i < n => Slot(lane, At(h, i, capacity)))
  }

  lemma {:induction false} WalkOverOccupied(slots: map<Slot, Record>, capacity: nat, lane: Lane, h: nat, n: nat)
    requires h < capacity && n <= capacity
    requires forall i: nat :: i < n ==> Slot(lane, At(h, i, capacity)) in slots
    ensures Walk(slots, capacity, lane, h, n) == Stretch(lane, h, n, capacity)
  {
    if n > 0 {
      WalkOverOccupied(slots, capacity, lane, h, n - 1);
      WalkSplits(slots, capacity, lane, h, n - 1, 1);
      var last := At(h, n - 1, capacity);
      assert Walk(slots, capacity, lane, last, 1) == [Slot(lane, last)];
    }
  }

  lemma {:induction false} WalkOverEmpty(slots: map<Slot, Record>, capacity: nat, lane: Lane, h: nat, n: nat)
    requires h < capacity && n <= capacity
    requires forall i: nat :: i < n ==> Slot(lane, At(h, i, capacity)) !in slots
    ensures Walk(slots, capacity, lane, h, n) == []
  {
    if n > 0 {
      WalkOverEmpty(slots, capacity, lane, h, n - 1);
      WalkSplits(slots, capacity, lane, h, n - 1, 1);
      assert Walk(slots, capacity, lane, At(h, n - 1, capacity), 1) == [];
    }
  }

  lemma DistanceToAt(h: nat, i: nat, capacity: nat)
    requires h < capacity && i < capacity
    ensures At(h, i, capacity) < capacity && Distance(h, At(h, i, capacity), capacity) == i
  {
  }

  lemma RingOccupies(slots: map<Slot, Record>, lane: Lane, l: LaneState, capacity: nat, i: nat)
    requires Ring(slots, lane, l, capacity) && i < capacity
    ensures Slot(lane, At(l.head, i, capacity)) in slots <==> i < l.count
  {
    DistanceToAt(l.head, i, capacity);
  }

  lemma FrontOfRing(slots: map<Slot, Record>, lane: Lane, l: LaneState, capacity: nat)
    requires Ring(slots, lane, l, capacity)
    ensures Walk(slots, capacity, lane, l.head, l.count) == Stretch(lane, l.head, l.count, capacity)
  {
    forall i: nat | i < l.count
      ensures Slot(lane, At(l.head, i, capacity)) in slots
    {
      RingOccupies(slots, lane, l, capacity, i);
    }
    WalkOverOccupied(slots, capacity, lane, l.head, l.count);
  }

  lemma BackOfRing(slots: map<Slot, Record>, lane: Lane, l: LaneState, capacity: nat)
    requires Ring(slots, lane, l, capacity)
    ensures Walk(slots, capacity, lane, At(l.head, l.count, capacity), capacity - l.count) == []
  {
    var tail := At(l.head, l.count, capacity);
    forall i: nat | i < capacity - l.count
      ensures Slot(lane, At(tail, i, capacity)) !in slots
    {
      assert At(tail, i, capacity) == At(l.head, l.count + i, capacity);
      RingOccupies(slots, lane, l, capacity, l.count + i);
    }
    WalkOverEmpty(slots, capacity, lane, tail, capacity - l.count);
  }

  lemma WalkOfRing(slots: map<Slot, Record>, lane: Lane, l: LaneState, capacity: nat)
    requires Ring(slots, lane, l, capacity)
    ensures Walk(slots, capacity, lane, l.head, capacity) == Stretch(lane, l.head, l.count, capacity)
  {
    FrontOfRing(slots, lane, l, capacity);
    BackOfRing(slots, lane, l, capacity);
    WalkSplits(slots, capacity, lane, l.head, l.count, capacity - l.count);
  }

  lemma LineIsStretch(d: Disk, lim: Limits, lane: Lane)
    requires InOrder(d, lim, lane)
    ensures var l := d.summary.Of(lane);
      Line(d, lim.capacity, lane) == Stretch(lane, l.head, l.count, lim.capacity)
  {
    WalkOfRing(d.slots, lane, d.summary.Of(lane), lim.capacity);
  }

  // In a lane filled in order the peeked record is the one with the smallest sequence.
  lemma PeekIsOldest(d: Disk, lim: Limits, lane: Lane, s: Slot)
    requires Accurate(d, lim) && InOrder(d, lim, lane) && s in d.slots && s.lane == lane
    ensures var found := FindItem(d.slots, lim.capacity, lane, d.summary.Of(lane).head, lim.capacity);
      && found == Some(Slot(lane, d.summary.Of(lane).head))
      && found.value in d.slots && d.slots[found.value].sequence <= d.slots[s].sequence
  {
    var h := d.summary.Of(lane).head;
    assert s == Slot(lane, s.cursor);
    assert Distance(h, s.cursor, lim.capacity) < d.summary.Of(lane).count;
    assert Distance(h, h, lim.capacity) == 0;
    assert Slot(lane, h) in d.slots;
  }

  // ---------------------------------------------------------------- the operations keep the order

  // The probe of a lane filled in order stops at its first try.
  lemma StoresAtWrite(d: Disk, lim: Limits, lane: Lane, r: NewRecord, dedupe: Dedupe)
    requires Accurate(d, lim) && InOrder(d, lim, lane)
    ensures var p := Enqueue(d, lim, lane, r, dedupe);
      p.result.Stored? ==>
        && p.result.slot == Slot(lane, d.summary.Of(lane).write)
        && d.summary.Of(lane).count < lim.capacity && p.result.slot !in d.slots
        && p.result.record == Prepare(r, d.summary.nextSequence)
  {
    var l := d.summary.Of(lane);
    var p := Enqueue(d, lim, lane, r, dedupe);
    assert LaneAccurate(d, lim, lane);
    if p.result.Stored? {
      assert l.count < lim.capacity by {
        match lane case Ready => {} case Deferred => {} case Held => {}
      }
      assert Slot(lane, l.write) !in d.slots;
    }
  }

  lemma EnqueueKeepsOtherLane(d: Disk, lim: Limits, lane: Lane, r: NewRecord, dedupe: Dedupe, other: Lane)
    requires Accurate(d, lim) && InOrder(d, lim, lane) && InOrder(d, lim, other) && lane != other
    ensures var after := Run(d, Enqueue(d, lim, lane, r, dedupe).ops);
      InOrder(after, lim, other) && after.summary.Of(other) == d.summary.Of(other)
  {
    EnqueueEffect(d, lim, lane, r, dedupe);
    StoresAtWrite(d, lim, lane, r, dedupe);
    var p := Enqueue(d, lim, lane, r, dedupe);
    assert !p.result.NoFreeSlot? by { FreeSlotExists(d, lim, lane, r, dedupe); }
    var after := Run(d, p.ops);
    assert after.summary.Of(other) == d.summary.Of(other);
    assert forall c: nat :: Slot(other, c) in after.slots <==> Slot(other, c) in d.slots;
    assert forall c: nat :: Slot(other, c) in d.slots ==> after.slots[Slot(other, c)] == d.slots[Slot(other, c)];
  }

  lemma RingStarts(slots: map<Slot, Record>, lane: Lane, l: LaneState, capacity: nat, record: Record, next: nat, bytes: nat)
    requires Ring(slots, lane, l, capacity) && l.count == 0 && l.write < capacity
    requires next == if l.write + 1 == capacity then 0 else l.write + 1
    ensures Ring(slots[Slot(lane, l.write) := record], lane, LaneState(l.write, next, 1, bytes), capacity)
  {
    assert Distance(l.write, l.write, capacity) == 0;
    assert At(l.write, 1, capacity) == next;
  }

  lemma RingGrows(slots: map<Slot, Record>, lane: Lane, l: LaneState, capacity: nat, record: Record, next: nat, bytes: nat)
    requires Ring(slots, lane, l, capacity) && 0 < l.count < capacity
    requires next == if l.write + 1 == capacity then 0 else l.write + 1
    requires forall c :: 0 <= c < capacity && Slot(lane, c) in slots ==> slots[Slot(lane, c)].sequence < record.sequence
    ensures Ring(slots[Slot(lane, l.write) := record], lane, LaneState(l.head, next, l.count + 1, bytes), capacity)
  {
    DistanceToAt(l.head, l.count, capacity);
    assert At(l.head, l.count + 1, capacity) == next;
    forall c | 0 <= c < capacity
      ensures Distance(l.head, c, capacity) == l.count <==> c == l.write
    {
    }
  }

  lemma RingAppends(slots: map<Slot, Record>, lane: Lane, l: LaneState, capacity: nat, record: Record)
    requires Ring(slots, lane, l, capacity) && l.count < capacity && l.write < capacity
    requires forall c :: 0 <= c < capacity && Slot(lane, c) in slots ==> slots[Slot(lane, c)].sequence < record.sequence
    ensures Ring(slots[Slot(lane, l.write) := record], lane,
                 LaneState(if l.count == 0 then l.write else l.head, Next(l.write, capacity), l.count + 1, l.bytes + record.size),
                 capacity)
  {
    NextIs(l.write, capacity);
    if l.count == 0 {
      RingStarts(slots, lane, l, capacity, record, Next(l.write, capacity), l.bytes + record.size);
    } else {
      RingGrows(slots, lane, l, capacity, record, Next(l.write, capacity), l.bytes + record.size);
    }
  }

  // The slots and the lane's state after an enqueue into a lane filled in order.
  lemma EnqueueState(d: Disk, lim: Limits, lane: Lane, r: NewRecord, dedupe: Dedupe)
    requires Accurate(d, lim) && InOrder(d, lim, lane)
    ensures var p := Enqueue(d, lim, lane, r, dedupe);
      var after := Run(d, p.ops);
      var l := d.summary.Of(lane);
      && (p.result.Stored? ==>
            && after.slots == d.slots[Slot(lane, l.write) := p.result.record]
            && after.summary.Of(lane)
               == LaneState(if l.count == 0 then l.write else l.head, Next(l.write, lim.capacity), l.count + 1, l.bytes + r.size))
      && (!p.result.Stored? ==> after.slots == d.slots && after.summary.Of(lane) == l)
  {
    EnqueueEffect(d, lim, lane, r, dedupe);
    StoresAtWrite(d, lim, lane, r, dedupe);
    match lane case Ready => {} case Deferred => {} case Held => {}
  }

  lemma EnqueueKeepsLane(d: Disk, lim: Limits, lane: Lane, r: NewRecord, dedupe: Dedupe)
    requires Accurate(d, lim) && InOrder(d, lim, lane)
    ensures InOrder(Run(d, Enqueue(d, lim, lane, r, dedupe).ops), lim, lane)
  {
    var p := Enqueue(d, lim, lane, r, dedupe);
    var l := d.summary.Of(lane);
    EnqueueState(d, lim, lane, r, dedupe);
    if p.result.Stored? {
      StoresAtWrite(d, lim, lane, r, dedupe);
      assert l.write < lim.capacity by { assert LaneAccurate(d, lim, lane); }
      RingAppends(d.slots, lane, l, lim.capacity, p.result.record);
    }
  }

  lemma RingDropsHead(slots: map<Slot, Record>, lane: Lane, l: LaneState, capacity: nat, bytes: nat)
    requires Ring(slots, lane, l, capacity) && l.count > 0
    ensures Slot(lane, l.head) in slots
    ensures Ring(slots - {Slot(lane, l.head)}, lane, LaneState(Next(l.head, capacity), l.write, l.count - 1, bytes), capacity)
  {
    NextIs(l.head, capacity);
    var next := Next(l.head, capacity);
    assert Distance(l.head, l.head, capacity) == 0;
    assert Distance(next, l.head, capacity) == capacity - 1;
    forall c | 0 <= c < capacity && c != l.head
      ensures Distance(l.head, c, capacity) == Distance(next, c, capacity) + 1
    {
    }
    assert l.count > 1 ==> At(next, l.count - 1, capacity) == At(l.head, l.count, capacity);
  }

  lemma CompleteHeadKeepsLane(d: Disk, lim: Limits, lane: Lane)
    requires Accurate(d, lim) && InOrder(d, lim, lane) && d.summary.Of(lane).count > 0
    ensures var slot := Slot(lane, d.summary.Of(lane).head);
      slot in d.slots && InOrder(Run(d, CompleteOps(d, lim, slot)), lim, lane)
  {
    var l := d.summary.Of(lane);
    var slot := Slot(lane, l.head);
    RingDropsHead(d.slots, lane, l, lim.capacity, Less(l.bytes, d.slots[slot].size));
    CompleteEffect(d, lim, slot);
    assert Run(d, CompleteOps(d, lim, slot)).summary.Of(lane)
      == LaneState(Next(l.head, lim.capacity), l.write, l.count - 1, Less(l.bytes, d.slots[slot].size));
  }

  lemma CompleteKeepsOtherLane(d: Disk, lim: Limits, slot: Slot, other: Lane)
    requires lim.capacity > 0 && slot in d.slots && slot.lane != other && InOrder(d, lim, other)
    ensures var after := Run(d, CompleteOps(d, lim, slot));
      InOrder(after, lim, other) && after.summary.Of(other) == d.summary.Of(other)
  {
    CompleteEffect(d, lim, slot);
    var after := Run(d, CompleteOps(d, lim, slot));
    assert after.summary.Of(other) == d.summary.Of(other);
    assert forall c: nat :: Slot(other, c) in after.slots <==> Slot(other, c) in d.slots;
    assert forall c: nat :: Slot(other, c) in d.slots ==> after.slots[Slot(other, c)] == d.slots[Slot(other, c)];
  }
}
