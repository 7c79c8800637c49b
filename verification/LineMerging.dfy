/**
  Merging lines that demand something under a key, for any notion of demands that can be met
  together: one item for every key, and a failure at the first line that cannot be met.
 */
module LineMerging {
  import opened Options

  // The name and the marker.
  datatype Key = Key(name: nat, marker: Option<nat>)

  datatype Line<C> = Line(key: Key, extras: set<nat>, constraints: seq<C>)

  datatype Item<C> = Item(lineNo: nat, key: Key, extras: set<nat>, constraints: seq<C>)

  datatype Failure = OwnConflict(lineNo: nat) | DuplicateConflict(lineNo: nat, firstLine: nat)

  datatype Result<C> = Items(items: seq<Item<C>>) | Rejected(failure: Failure)

  // Blank lines and comments are None.
  type Lines<C> = seq<Option<Line<C>>>

  function Elements<C>(cs: seq<C>): set<C> { set c | c in cs }

  lemma ElementsConcat<C>(a: seq<C>, b: seq<C>)
    ensures Elements(a + b) == Elements(a) + Elements(b)
  {
  }

  // The line, when it has the key.
  predicate Mentions<C>(line: Option<Line<C>>, key: Key) { line.Some? && line.value.key == key }

  // All that the first n lines demand under a key.
  function Demands<C>(lines: Lines<C>, n: nat, key: Key): set<C>
    requires n <= |lines|
  {
    if n == 0 then {}
    else if Mentions(lines[n - 1], key) then Demands(lines, n - 1, key) + Elements(lines[n - 1].value.constraints)
    else Demands(lines, n - 1, key)
  }

  function ExtrasOf<C>(lines: Lines<C>, n: nat, key: Key): set<nat>
    requires n <= |lines|
  {
    if n == 0 then {}
    else if Mentions(lines[n - 1], key) then ExtrasOf(lines, n - 1, key) + lines[n - 1].value.extras
    else ExtrasOf(lines, n - 1, key)
  }

  // No line before the given one has its key.
  ghost predicate IsFirst<C>(lines: Lines<C>, i: nat)
    requires i < |lines| && lines[i].Some?
  {
    forall j :: 0 <= j < i ==> !Mentions(lines[j], lines[i].value.key)
  }

  // Demands are harder to meet the more they are.
  ghost predicate Monotone<C(!new)>(met: set<C> -> bool) {
    forall a, b :: a <= b && met(b) ==> met(a)
  }

  // The demands of the first n lines can be met, for every key.
  ghost predicate Consistent<C(!new)>(lines: Lines<C>, n: nat, met: set<C> -> bool)
    requires n <= |lines|
  {
    forall i :: 0 <= i < n && lines[i].Some? ==> met(Demands(lines, n, lines[i].value.key))
  }

  // An item for the key of its first line, with all that the lines demand under the key.
  ghost predicate Merged<C>(lines: Lines<C>, n: nat, item: Item<C>)
    requires n <= |lines|
  {
    && 0 < item.lineNo <= n && Mentions(lines[item.lineNo - 1], item.key) && IsFirst(lines, item.lineNo - 1)
    && item.extras == ExtrasOf(lines, n, item.key) && Elements(item.constraints) == Demands(lines, n, item.key)
  }

  ghost predicate HasItem<C>(items: seq<Item<C>>, key: Key) { exists k :: 0 <= k < |items| && items[k].key == key }

  // One item for every key, in the order in which the keys first occur.
  ghost predicate MergedAll<C>(lines: Lines<C>, n: nat, items: seq<Item<C>>)
    requires n <= |lines|
  {
    && (forall k :: 0 <= k < |items| ==> Merged(lines, n, items[k]))
    && (forall k, l :: 0 <= k < l < |items| ==> items[k].lineNo < items[l].lineNo && items[k].key != items[l].key)
    && (forall i {:trigger HasItem(items, lines[i].value.key)} ::
          0 <= i < n && lines[i].Some? ==> HasItem(items, lines[i].value.key))
  }

  // The first line that cannot be met: by itself, or together with those before.
  ghost predicate FirstConflict<C(!new)>(lines: Lines<C>, failure: Failure, met: set<C> -> bool) {
    var n := failure.lineNo;
    && 0 < n <= |lines| && lines[n - 1].Some? && Consistent(lines, n - 1, met)
    && !met(Demands(lines, n, lines[n - 1].value.key))
    && (failure.OwnConflict? <==> !met(Elements(lines[n - 1].value.constraints)))
    && (failure.DuplicateConflict? ==>
          0 < failure.firstLine < n && Mentions(lines[failure.firstLine - 1], lines[n - 1].value.key)
          && IsFirst(lines, failure.firstLine - 1))
  }

  lemma {:induction false} DemandsGrow<C>(lines: Lines<C>, m: nat, n: nat, key: Key)
    requires m <= n <= |lines|
    ensures Demands(lines, m, key) <= Demands(lines, n, key)
    decreases n
  {
    if m < n {
      DemandsGrow(lines, m, n - 1, key);
    }
  }

  // Once demands cannot be met, later lines do not change that.
  lemma InconsistencyStays<C(!new)>(lines: Lines<C>, m: nat, n: nat, met: set<C> -> bool)
    requires m <= n <= |lines| && Consistent(lines, n, met) && Monotone(met)
    ensures Consistent(lines, m, met)
  {
    forall i | 0 <= i < m && lines[i].Some?
      ensures met(Demands(lines, m, lines[i].value.key))
    {
      DemandsGrow(lines, m, n, lines[i].value.key);
    }
  }

  lemma ConsistentStep<C(!new)>(lines: Lines<C>, n: nat, met: set<C> -> bool)
    requires n < |lines| && Consistent(lines, n, met)
    requires lines[n].Some? ==> met(Demands(lines, n + 1, lines[n].value.key))
    ensures Consistent(lines, n + 1, met)
  {
    forall i | 0 <= i < n + 1 && lines[i].Some?
      ensures met(Demands(lines, n + 1, lines[i].value.key))
    {
      if !Mentions(lines[n], lines[i].value.key) {
        assert Demands(lines, n + 1, lines[i].value.key) == Demands(lines, n, lines[i].value.key);
      }
    }
  }

  lemma CannotRecover<C(!new)>(lines: Lines<C>, n: nat, met: set<C> -> bool)
    requires n < |lines| && lines[n].Some? && !met(Demands(lines, n + 1, lines[n].value.key)) && Monotone(met)
    ensures !Consistent(lines, |lines|, met)
  {
    if Consistent(lines, |lines|, met) {
      InconsistencyStays(lines, n + 1, |lines|, met);
    }
  }

  lemma {:induction false} NothingDemanded<C>(lines: Lines<C>, n: nat, key: Key)
    requires n <= |lines| && forall i :: 0 <= i < n ==> !Mentions(lines[i], key)
    ensures Demands(lines, n, key) == {} && ExtrasOf(lines, n, key) == {}
  {
    if n > 0 {
      NothingDemanded(lines, n - 1, key);
    }
  }

  // ---------------------------------------------------------------- one line more

  lemma ItemStays<C>(lines: Lines<C>, n: nat, item: Item<C>)
    requires n < |lines| && Merged(lines, n, item) && !Mentions(lines[n], item.key)
    ensures Merged(lines, n + 1, item)
  {
  }

  lemma BlankStep<C>(lines: Lines<C>, n: nat, items: seq<Item<C>>)
    requires n < |lines| && lines[n].None? && MergedAll(lines, n, items)
    ensures MergedAll(lines, n + 1, items)
  {
    forall k | 0 <= k < |items|
      ensures Merged(lines, n + 1, items[k])
    {
      ItemStays(lines, n, items[k]);
    }
  }

  ghost predicate NoItemFor<C>(items: seq<Item<C>>, key: Key) { forall k :: 0 <= k < |items| ==> items[k].key != key }

  lemma NewKeyIsFirst<C>(lines: Lines<C>, n: nat, items: seq<Item<C>>)
    requires n < |lines| && lines[n].Some? && MergedAll(lines, n, items) && NoItemFor(items, lines[n].value.key)
    ensures IsFirst(lines, n) && Demands(lines, n + 1, lines[n].value.key) == Elements(lines[n].value.constraints)
    ensures ExtrasOf(lines, n + 1, lines[n].value.key) == lines[n].value.extras
  {
    var key := lines[n].value.key;
    forall j | 0 <= j < n
      ensures !Mentions(lines[j], key)
    {
      assert Mentions(lines[j], key) ==> HasItem(items, lines[j].value.key);
    }
    NothingDemanded(lines, n, key);
  }

  lemma NewStep<C>(lines: Lines<C>, n: nat, items: seq<Item<C>>, item: Item<C>)
    requires n < |lines| && lines[n].Some? && MergedAll(lines, n, items) && NoItemFor(items, lines[n].value.key)
    requires item.lineNo == n + 1 && item.key == lines[n].value.key && item.extras == lines[n].value.extras
    requires Elements(item.constraints) == Elements(lines[n].value.constraints)
    ensures MergedAll(lines, n + 1, items + [item])
  {
    var after := items + [item];
    NewKeyIsFirst(lines, n, items);
    forall k | 0 <= k < |after|
      ensures Merged(lines, n + 1, after[k])
    {
      if k < |items| {
        ItemStays(lines, n, items[k]);
      }
    }
    forall i | 0 <= i < n + 1 && lines[i].Some?
      ensures HasItem(after, lines[i].value.key)
    {
      if i < n {
        assert HasItem(items, lines[i].value.key);
        var k :| 0 <= k < |items| && items[k].key == lines[i].value.key;
        assert after[k].key == lines[i].value.key;
      } else {
        assert after[|items|].key == lines[i].value.key;
      }
    }
  }

  // An item with what one line more demands.
  ghost predicate Updated<C>(before: Item<C>, line: Line<C>, item: Item<C>) {
    && item.lineNo == before.lineNo && item.key == before.key && item.extras == before.extras + line.extras
    && Elements(item.constraints) == Elements(before.constraints) + Elements(line.constraints)
  }

  lemma KnownItem<C>(lines: Lines<C>, n: nat, before: Item<C>, item: Item<C>)
    requires n < |lines| && Mentions(lines[n], before.key) && Merged(lines, n, before) && Updated(before, lines[n].value, item)
    ensures Merged(lines, n + 1, item) && Elements(item.constraints) == Demands(lines, n + 1, item.key)
  {
  }

  // What remains true of a list of items when one is replaced by one of the same key and line.
  ghost predicate SamePlaces<C>(items: seq<Item<C>>, after: seq<Item<C>>) {
    |after| == |items| && forall k :: 0 <= k < |items| ==> after[k].key == items[k].key && after[k].lineNo == items[k].lineNo
  }

  lemma SameKeys<C>(items: seq<Item<C>>, after: seq<Item<C>>, key: Key)
    requires SamePlaces(items, after) && HasItem(items, key)
    ensures HasItem(after, key)
  {
    var k :| 0 <= k < |items| && items[k].key == key;
    assert after[k].key == key;
  }

  lemma KnownStep<C>(lines: Lines<C>, n: nat, items: seq<Item<C>>, k: nat, item: Item<C>)
    requires n < |lines| && lines[n].Some? && MergedAll(lines, n, items)
    requires k < |items| && items[k].key == lines[n].value.key && Updated(items[k], lines[n].value, item)
    ensures MergedAll(lines, n + 1, items[k := item])
    ensures Elements(item.constraints) == Demands(lines, n + 1, lines[n].value.key)
  {
    var after := items[k := item];
    KnownItem(lines, n, items[k], item);
    forall l | 0 <= l < |after|
      ensures Merged(lines, n + 1, after[l])
    {
      if l != k {
        assert items[l].key != items[k].key;
        ItemStays(lines, n, items[l]);
      }
    }
    assert SamePlaces(items, after);
    forall i | 0 <= i < n + 1 && lines[i].Some?
      ensures HasItem(after, lines[i].value.key)
    {
      assert HasItem(items, lines[i].value.key) by {
        if i == n {
          assert items[k].key == lines[i].value.key;
        }
      }
      SameKeys(items, after, lines[i].value.key);
    }
  }

  // ---------------------------------------------------------------- the loop

  // The table of the items by key.
  ghost predicate Indexed<C>(items: seq<Item<C>>, indexes: map<Key, nat>) {
    && (forall key :: key in indexes ==> indexes[key] < |items| && items[indexes[key]].key == key)
    && (forall k :: 0 <= k < |items| ==> items[k].key in indexes && indexes[items[k].key] == k)
  }

  // What the loop knows after n lines.
  ghost predicate Reading<C(!new)>(lines: Lines<C>, n: nat, items: seq<Item<C>>, indexes: map<Key, nat>, met: set<C> -> bool) {
    n <= |lines| && Consistent(lines, n, met) && MergedAll(lines, n, items) && Indexed(items, indexes)
  }

  lemma ReadBlank<C(!new)>(lines: Lines<C>, n: nat, items: seq<Item<C>>, indexes: map<Key, nat>, met: set<C> -> bool)
    requires Reading(lines, n, items, indexes, met) && n < |lines| && lines[n].None?
    ensures Reading(lines, n + 1, items, indexes, met)
  {
    ConsistentStep(lines, n, met);
    BlankStep(lines, n, items);
  }

  lemma ReadNew<C(!new)>(lines: Lines<C>, n: nat, items: seq<Item<C>>, indexes: map<Key, nat>, met: set<C> -> bool, item: Item<C>)
    requires Reading(lines, n, items, indexes, met) && n < |lines| && lines[n].Some?
    requires lines[n].value.key !in indexes && met(Elements(lines[n].value.constraints))
    requires item.lineNo == n + 1 && item.key == lines[n].value.key && item.extras == lines[n].value.extras
    requires Elements(item.constraints) == Elements(lines[n].value.constraints)
    ensures Reading(lines, n + 1, items + [item], indexes[item.key := |items|], met)
  {
    NewKeyIsFirst(lines, n, items);
    ConsistentStep(lines, n, met);
    NewStep(lines, n, items, item);
  }

  lemma ReadKnown<C(!new)>(lines: Lines<C>, n: nat, items: seq<Item<C>>, indexes: map<Key, nat>, met: set<C> -> bool, k: nat, item: Item<C>)
    requires Reading(lines, n, items, indexes, met) && n < |lines| && lines[n].Some?
    requires k < |items| && items[k].key == lines[n].value.key && met(Elements(item.constraints))
    requires Updated(items[k], lines[n].value, item)
    ensures Reading(lines, n + 1, items[k := item], indexes, met)
  {
    KnownStep(lines, n, items, k, item);
    ConsistentStep(lines, n, met);
  }

  lemma OwnFails<C(!new)>(lines: Lines<C>, n: nat, met: set<C> -> bool)
    requires Monotone(met) && n < |lines| && lines[n].Some? && Consistent(lines, n, met)
    requires !met(Elements(lines[n].value.constraints))
    ensures FirstConflict(lines, OwnConflict(n + 1), met) && !Consistent(lines, |lines|, met)
  {
    var key := lines[n].value.key;
    assert Elements(lines[n].value.constraints) <= Demands(lines, n + 1, key);
    CannotRecover(lines, n, met);
  }

  lemma MergeFails<C(!new)>(lines: Lines<C>, n: nat, items: seq<Item<C>>, met: set<C> -> bool, k: nat, item: Item<C>)
    requires Monotone(met) && n < |lines| && lines[n].Some? && Consistent(lines, n, met) && MergedAll(lines, n, items)
    requires k < |items| && items[k].key == lines[n].value.key && met(Elements(lines[n].value.constraints))
    requires Updated(items[k], lines[n].value, item)
    requires !met(Elements(item.constraints))
    ensures FirstConflict(lines, DuplicateConflict(n + 1, items[k].lineNo), met) && !Consistent(lines, |lines|, met)
  {
    KnownStep(lines, n, items, k, item);
    CannotRecover(lines, n, met);
  }

  // The item with a further line merged into it.
  method Extended<C>(existing: Item<C>, line: Line<C>, constraints: seq<C>, tidy: seq<C> -> seq<C>)
    returns (item: Item<C>)
    requires Elements(constraints) == Elements(line.constraints)
    requires forall cs {:trigger tidy(cs)} :: Elements(tidy(cs)) == Elements(cs)
    ensures Updated(existing, line, item)
  {
    ElementsConcat(existing.constraints, constraints);
    item := existing.(extras := existing.extras + line.extras, constraints := tidy(existing.constraints + constraints));
  }

  // Accepts exactly the lines whose demands can be met for every key, and then yields one item for
  // every key, in the order of first appearance, with exactly what its lines demand; otherwise
  // points at the first line that cannot be met.
  method ReadLines<C(==, !new)>(lines: Lines<C>, conflict: seq<C> -> bool, tidy: seq<C> -> seq<C>, ghost met: set<C> -> bool)
    returns (result: Result<C>)
    requires Monotone(met)
    requires forall cs {:trigger conflict(cs)} :: conflict(cs) <==> !met(Elements(cs))
    requires forall cs {:trigger tidy(cs)} :: Elements(tidy(cs)) == Elements(cs)
    ensures result.Items? <==> Consistent(lines, |lines|, met)
    ensures result.Items? ==> MergedAll(lines, |lines|, result.items)
    ensures result.Rejected? ==> FirstConflict(lines, result.failure, met)
  {
    var items: seq<Item<C>> := [];
    var indexes: map<Key, nat> := map[];
    var n: nat := 0;
    while n < |lines|
      invariant Reading(lines, n, items, indexes, met)
    {
      if lines[n].None? {
        ReadBlank(lines, n, items, indexes, met);
      } else {
        var line := lines[n].value;
        var constraints := tidy(line.constraints);
        if conflict(constraints) {
          OwnFails(lines, n, met);
          return Rejected(OwnConflict(n + 1));
        }
        if line.key !in indexes {
          var item := Item(n + 1, line.key, line.extras, constraints);
          ReadNew(lines, n, items, indexes, met, item);
          indexes := indexes[line.key := |items|];
          items := items + [item];
        } else {
          var k := indexes[line.key];
          var item := Extended(items[k], line, constraints, tidy);
          if conflict(item.constraints) {
            MergeFails(lines, n, items, met, k, item);
            return Rejected(DuplicateConflict(n + 1, item.lineNo));
          }
          ReadKnown(lines, n, items, indexes, met, k, item);
          items := items[k := item];
        }
      }
      n := n + 1;
    }
    return Items(items);
  }
}
