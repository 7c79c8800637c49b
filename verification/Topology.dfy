/**
  The tree of folded path components that an archive's members are inserted into, one by one, to
  refuse members that a case-insensitive file system could not hold together.
 */
module Topologies {
  import opened Options

  // A component of a path, and what case folding makes of it.
  datatype Component = Component(text: nat, folded: nat)

  type Path = seq<nat>

  // A member under its raw name; core marks the metadata files of the distribution.
  datatype Member = Member(raw: nat, components: seq<Component>, isDirectory: bool, core: bool)
  {
    function Key(): Path { seq(|components|, (i: nat) requires i < |components| => components[i].folded) }
  }

  datatype Refusal = BeneathFile | DuplicateCore | Duplicate | FileIsParent

  predicate IsProperPrefix(p: Path, q: Path) { |p| < |q| && p == q[..|p|] }

  // Neither is in the way of the other.
  predicate Together(a: Member, b: Member) {
    && a.Key() != b.Key()
    && (!a.isDirectory ==> !IsProperPrefix(a.Key(), b.Key()))
    && (!b.isDirectory ==> !IsProperPrefix(b.Key(), a.Key()))
  }

  ghost predicate AllTogether(ms: seq<Member>) {
    forall i, j :: 0 <= i < j < |ms| ==> Together(ms[i], ms[j])
  }

  // What a new member may meet: a file above it, a member of its own key, a member below it.
  ghost predicate FileAbove(done: seq<Member>, m: Member, depth: nat)
    requires depth <= |m.components|
  {
    exists d, j :: d in done && 0 <= j < depth && !d.isDirectory && d.Key() == m.Key()[..j]
  }

  ghost predicate SameKey(done: seq<Member>, m: Member) { exists d :: d in done && d.Key() == m.Key() }

  ghost predicate MemberBelow(done: seq<Member>, m: Member) {
    exists d :: d in done && IsProperPrefix(m.Key(), d.Key())
  }

  ghost predicate CoreTwin(done: seq<Member>, m: Member) {
    m.core || exists d :: d in done && d.Key() == m.Key() && d.core
  }

  // Why the new member is refused; what lies above it is met first, what lies below it last.
  ghost function RefusalOf(done: seq<Member>, m: Member): Option<Refusal> {
    if FileAbove(done, m, |m.components|) then Some(BeneathFile)
    else if SameKey(done, m) then Some(if CoreTwin(done, m) then DuplicateCore else Duplicate)
    else if !m.isDirectory && MemberBelow(done, m) then Some(FileIsParent)
    else None
  }

  // A member is refused exactly if it cannot be held together with one of those before it.
  lemma RefusedIff(done: seq<Member>, m: Member)
    ensures RefusalOf(done, m).None? <==> forall d :: d in done ==> Together(d, m)
  {
    if FileAbove(done, m, |m.components|) {
      var d, j :| d in done && 0 <= j < |m.components| && !d.isDirectory && d.Key() == m.Key()[..j];
      assert !Together(d, m);
    } else if SameKey(done, m) {
      var d :| d in done && d.Key() == m.Key();
      assert !Together(d, m);
    } else if !m.isDirectory && MemberBelow(done, m) {
      var d :| d in done && IsProperPrefix(m.Key(), d.Key());
      assert !Together(d, m);
    } else {
      forall d | d in done
        ensures Together(d, m)
      {
        if IsProperPrefix(d.Key(), m.Key()) {
          assert |d.Key()| < |m.components| && d.Key() == m.Key()[..|d.Key()|];
        }
      }
    }
  }

  // Whether the members can be held together does not depend on their order.
  lemma OrderDoesNotMatter(ms: seq<Member>, ns: seq<Member>)
    requires multiset(ms) == multiset(ns) && AllTogether(ms)
    ensures AllTogether(ns)
  {
    forall i, j | 0 <= i < j < |ns|
      ensures Together(ns[i], ns[j])
    {
      var a, b := ns[i], ns[j];
      if a == b {
        TwiceIn(ns, i, j);
        assert multiset(ms)[a] >= 2;
        var k, l := TwoPlaces(ms, a);
        assert Together(ms[k], ms[l]);
      } else {
        assert a in multiset(ns) && b in multiset(ns);
        var k: nat :| k < |ms| && ms[k] == a;
        var l: nat :| l < |ms| && ms[l] == b;
        if k < l {
          assert Together(ms[k], ms[l]);
        } else {
          assert Together(ms[l], ms[k]);
        }
      }
    }
  }

  lemma TwiceIn(ns: seq<Member>, i: nat, j: nat)
    requires i < j < |ns| && ns[i] == ns[j]
    ensures multiset(ns)[ns[i]] >= 2
  {
    assert ns == ns[..j] + ns[j..];
    assert ns[..j][i] == ns[i] && ns[j..][0] == ns[j];
    assert ns[i] in ns[..j] && ns[i] in ns[j..];
  }

  lemma {:induction false} TwoPlaces(ms: seq<Member>, a: Member) returns (k: nat, l: nat)
    requires multiset(ms)[a] >= 2
    ensures k < l < |ms| && ms[k] == a && ms[l] == a
  {
    var n := |ms| - 1;
    assert ms == ms[..n] + [ms[n]];
    if ms[n] == a {
      assert a in multiset(ms[..n]);
      k :| 0 <= k < n && ms[..n][k] == a;
      l := n;
    } else {
      k, l := TwoPlaces(ms[..n], a);
    }
  }

  class Node {
    var children: map<nat, Node>
    var terminal: Option<Member>
    var isFile: bool

    constructor ()
      ensures children == map[] && terminal == None && !isFile
    {
      children, terminal, isFile := map[], None, false;
    }
  }

  // What a node says: the member that ends there, and whether that is a file.
  datatype Label = Label(terminal: Option<Member>, isFile: bool)

  type Labels = map<Path, Label>

  // The path leads to the member or to a directory above it.
  predicate OnPath(p: Path, m: Member) { p == m.Key() || IsProperPrefix(p, m.Key()) }

  ghost predicate Leads(p: Path, done: seq<Member>) { exists m :: m in done && OnPath(p, m) }

  ghost predicate EndsNowhere(p: Path, done: seq<Member>) { forall m :: m in done ==> m.Key() != p }

  // The nodes are those on the way to the members, and mark where each member ends.
  ghost predicate Holds(labels: Labels, done: seq<Member>) {
    && (forall p :: p in labels <==> p == [] || Leads(p, done))
    && (forall p :: p in labels && labels[p].terminal.None? ==> !labels[p].isFile && EndsNowhere(p, done))
    && (forall p :: p in labels && labels[p].terminal.Some? ==>
          && labels[p].terminal.value in done && labels[p].terminal.value.Key() == p
          && labels[p].isFile == !labels[p].terminal.value.isDirectory)
  }

  // The labels while a member's path is being laid: new nodes up to the given depth.
  ghost predicate Laid(labels: Labels, before: Labels, key: Path, depth: nat) {
    && depth <= |key|
    && (forall p :: p in labels <==> p in before || (exists i :: 0 <= i <= depth && p == key[..i]))
    && (forall p :: p in labels ==> labels[p] == if p in before then before[p] else Label(None, false))
  }

  lemma LaidStep(labels: Labels, after: Labels, before: Labels, key: Path, depth: nat)
    requires Laid(labels, before, key, depth) && depth < |key|
    requires after == (if key[..depth + 1] in labels then labels else labels[key[..depth + 1] := Label(None, false)])
    ensures Laid(after, before, key, depth + 1)
  {
    forall p
      ensures p in after <==> p in before || (exists i :: 0 <= i <= depth + 1 && p == key[..i])
    {
      assert p == key[..depth + 1] ==> p in after;
    }
  }

  lemma OneMemberPerKey(ms: seq<Member>, a: Member, b: Member)
    requires AllTogether(ms) && a in ms && b in ms && a.Key() == b.Key()
    ensures a == b
  {
    var i: nat :| i < |ms| && ms[i] == a;
    var j: nat :| j < |ms| && ms[j] == b;
    assert i == j;
  }

  // Nothing has been found in the way so far: no file ends above the place reached.
  lemma NoFileAbove(labels: Labels, before: Labels, done: seq<Member>, m: Member, depth: nat)
    requires Holds(before, done) && AllTogether(done) && Laid(labels, before, m.Key(), depth)
    ensures m.Key()[..depth] in labels
    ensures labels[m.Key()[..depth]].isFile <==> exists d :: d in done && !d.isDirectory && d.Key() == m.Key()[..depth]
  {
    var p := m.Key()[..depth];
    if p !in before {
      forall d | d in done
        ensures d.Key() != p
      {
        assert d.Key() == p ==> OnPath(p, d);
      }
    } else if d :| d in done && !d.isDirectory && d.Key() == p {
      assert before[p].terminal.Some?;
      OneMemberPerKey(done, d, before[p].terminal.value);
    }
  }

  lemma OneDeeper(done: seq<Member>, m: Member, i: nat)
    requires i < |m.components|
    ensures FileAbove(done, m, i + 1)
       <==> FileAbove(done, m, i) || exists d :: d in done && !d.isDirectory && d.Key() == m.Key()[..i]
  {
  }

  lemma FileStaysAbove(done: seq<Member>, m: Member, i: nat, n: nat)
    requires i <= n <= |m.components| && FileAbove(done, m, i)
    ensures FileAbove(done, m, n)
  {
  }

  lemma EndIsTaken(labels: Labels, before: Labels, done: seq<Member>, m: Member)
    requires Holds(before, done) && Laid(labels, before, m.Key(), |m.Key()|)
    ensures m.Key() in labels
    ensures labels[m.Key()].terminal.Some? <==> exists d :: d in done && d.Key() == m.Key()
  {
    var p := m.Key();
    assert p == p[..|p|];
    if p !in before {
      forall d | d in done
        ensures d.Key() != p
      {
        assert d.Key() == p ==> OnPath(p, d);
      }
    }
  }

  // The member that ends there is the only one of that key.
  lemma TerminalIsTwin(labels: Labels, before: Labels, done: seq<Member>, m: Member)
    requires Holds(before, done) && AllTogether(done) && Laid(labels, before, m.Key(), |m.Key()|)
    requires m.Key() in labels && labels[m.Key()].terminal.Some?
    ensures CoreTwin(done, m) <==> m.core || labels[m.Key()].terminal.value.core
  {
    var t := labels[m.Key()].terminal.value;
    assert t in done && t.Key() == m.Key();
    forall d | d in done && d.Key() == m.Key()
      ensures d == t
    {
      OneMemberPerKey(done, d, t);
    }
  }

  lemma StillTogether(done: seq<Member>, m: Member)
    requires AllTogether(done) && forall d :: d in done ==> Together(d, m)
    ensures AllTogether(done + [m])
  {
  }

  // A node below the new member's own is on the way to a member inserted before.
  lemma NodeBelow(labels: Labels, before: Labels, done: seq<Member>, m: Member, c: nat)
    requires Holds(before, done) && Laid(labels, before, m.Key(), |m.Key()|) && Below(m.Key(), c) in labels
    ensures exists d :: d in done && IsProperPrefix(m.Key(), d.Key())
  {
    var p := Below(m.Key(), c);
    assert p in before && p != [];
    var d :| d in done && OnPath(p, d);
    assert m.Key() == d.Key()[..|m.Key()|] by {
      assert p[..|m.Key()|] == m.Key();
      assert p == d.Key()[..|p|];
      assert d.Key()[..|p|][..|m.Key()|] == d.Key()[..|m.Key()|];
    }
  }

  lemma MemberHasNodeBelow(labels: Labels, before: Labels, done: seq<Member>, m: Member, d: Member)
    requires Holds(before, done) && Laid(labels, before, m.Key(), |m.Key()|)
    requires d in done && IsProperPrefix(m.Key(), d.Key())
    ensures Below(m.Key(), d.Key()[|m.Key()|]) in labels
  {
    var p := Below(m.Key(), d.Key()[|m.Key()|]);
    assert p == d.Key()[..|m.Key()| + 1];
    assert OnPath(p, d);
  }

  lemma DomainAfter(labels: Labels, before: Labels, done: seq<Member>, m: Member, p: Path)
    requires Holds(before, done) && Laid(labels, before, m.Key(), |m.Key()|)
    ensures p in labels <==> p == [] || Leads(p, done + [m])
  {
    var key := m.Key();
    assert m in done + [m];
    if i :| 0 <= i <= |key| && p == key[..i] {
      assert p == [] || OnPath(p, m);
    } else if p in before && p != [] {
      var d :| d in done && OnPath(p, d);
      assert d in done + [m];
    } else if p != [] {
      assert p != key[..|key|];
      assert |p| <= |key| ==> p != key[..|p|];
      forall d | d in done + [m]
        ensures !OnPath(p, d)
      {
        assert d in done || d == m;
      }
    }
  }

  lemma NewNodesEndNoMember(labels: Labels, before: Labels, done: seq<Member>, p: Path, m: Member)
    requires Holds(before, done) && Laid(labels, before, m.Key(), |m.Key()|) && p in labels && labels[p].terminal.None?
    ensures !labels[p].isFile && forall d :: d in done ==> d.Key() != p
  {
    if p !in before {
      forall d | d in done
        ensures d.Key() != p
      {
        assert d.Key() == p ==> OnPath(p, d);
      }
    }
  }

  lemma HoldsAfter(labels: Labels, after: Labels, before: Labels, done: seq<Member>, m: Member)
    requires Holds(before, done) && Laid(labels, before, m.Key(), |m.Key()|) && m.Key() in labels
    requires after == labels[m.Key() := Label(Some(m), !m.isDirectory)]
    ensures Holds(after, done + [m])
  {
    forall p
      ensures p in after <==> p == [] || Leads(p, done + [m])
    {
      DomainAfter(labels, before, done, m, p);
    }
    forall p | p in after && after[p].terminal.None?
      ensures !after[p].isFile && EndsNowhere(p, done + [m])
    {
      NewNodesEndNoMember(labels, before, done, p, m);
    }
    forall p | p in after && after[p].terminal.Some?
      ensures after[p].terminal.value in done + [m] && after[p].terminal.value.Key() == p
        && after[p].isFile == !after[p].terminal.value.isDirectory
    {
      if p != m.Key() {
        assert p in before && after[p] == before[p];
      }
    }
  }

  function Below(p: Path, c: nat): Path { p + [c] }

  lemma BelowIsInjective(p: Path, c: nat)
    ensures forall q, d :: Below(q, d) == Below(p, c) ==> q == p && d == c
    ensures Below(p, c) != [] && forall q, d :: Below(q, d) != q
  {
    forall q, d
      ensures Below(q, d) != q
    {
      assert |Below(q, d)| > |q|;
    }
    forall q, d | Below(q, d) == Below(p, c)
      ensures q == p && d == c
    {
      assert q == Below(q, d)[..|q|] && p == Below(p, c)[..|p|];
      assert Below(q, d)[|q|] == d && Below(p, c)[|p|] == c;
    }
  }

  class Topology {
    const root: Node
    // Every node under its path, and the members inserted so far.
    ghost var nodes: map<Path, Node>
    ghost var done: seq<Member>

    // The nodes form a tree: each is the child of the node above it, and no two paths share one.
    ghost predicate IsTree()
      reads this, nodes.Values
    {
      && [] in nodes && nodes[[]] == root
      && (forall p, q :: p in nodes && q in nodes && p != q ==> nodes[p] != nodes[q])
      && (forall p, c {:trigger Below(p, c)} :: Below(p, c) in nodes ==> p in nodes)
      && (forall p, c {:trigger Below(p, c)} :: p in nodes ==> (c in nodes[p].children <==> Below(p, c) in nodes))
      && (forall p, c {:trigger Below(p, c)} :: p in nodes && c in nodes[p].children ==> nodes[Below(p, c)] == nodes[p].children[c])
    }

    ghost function View(): Labels
      reads this, nodes.Values
    {
      map p | p in nodes :: Label(nodes[p].terminal, nodes[p].isFile)
    }

    ghost predicate Valid()
      reads this, nodes.Values
    {
      IsTree() && Holds(View(), done) && AllTogether(done)
    }

    constructor ()
      ensures Valid() && done == [] && fresh(nodes.Values)
    {
      root := new Node();
      nodes := map[[] := root];
      done := [];
    }

    // The child of a node, made if it is missing.
    method Child(node: Node, component: nat, ghost path: Path) returns (child: Node)
      requires IsTree() && path in nodes && nodes[path] == node
      modifies node`children, `nodes
      ensures IsTree() && Below(path, component) in nodes && nodes[Below(path, component)] == child
      ensures nodes == old(nodes)
           || (Below(path, component) !in old(nodes) && nodes == old(nodes)[Below(path, component) := child] && fresh(child))
      ensures View() == if Below(path, component) in old(nodes) then old(View())
                        else old(View())[Below(path, component) := Label(None, false)]
    {
      ghost var here := Below(path, component);
      BelowIsInjective(path, component);
      if component in node.children {
        return node.children[component];
      }
      child := new Node();
      node.children := node.children[component := child];
      nodes := nodes[here := child];
    }

    // One step down, from the node reached so far.
    method StepDown(m: Member, i: nat, node: Node, ghost before: Labels) returns (child: Node)
      requires IsTree() && i < |m.components| && m.Key()[..i] in nodes && nodes[m.Key()[..i]] == node
      requires Laid(View(), before, m.Key(), i)
      modifies node`children, `nodes
      ensures IsTree() && m.Key()[..i + 1] in nodes && nodes[m.Key()[..i + 1]] == child
      ensures Laid(View(), before, m.Key(), i + 1)
      ensures fresh(nodes.Values - old(nodes.Values))
    {
      ghost var labels, key := View(), m.Key();
      assert Below(key[..i], key[i]) == key[..i + 1];
      child := Child(node, m.components[i].folded, key[..i]);
      LaidStep(labels, View(), before, key, i);
    }

    // Lays the way to the member's node, unless a file is in the way.
    method Descend(m: Member) returns (node: Node, blocked: bool)
      requires Valid()
      modifies `nodes, nodes.Values
      ensures blocked <==> FileAbove(done, m, |m.components|)
      ensures !blocked ==>
        && IsTree() && Laid(View(), old(View()), m.Key(), |m.Key()|)
        && m.Key() in nodes && nodes[m.Key()] == node
      ensures fresh(nodes.Values - old(nodes.Values))
    {
      node, blocked := root, false;
      ghost var before, key := View(), m.Key();
      var i: nat := 0;
      while i < |m.components|
        invariant i <= |m.components| && IsTree() && key[..i] in nodes && nodes[key[..i]] == node
        invariant Laid(View(), before, key, i) && !FileAbove(done, m, i) && !blocked
        invariant fresh(nodes.Values - old(nodes.Values))
      {
        NoFileAbove(View(), before, done, m, i);
        OneDeeper(done, m, i);
        if node.isFile {
          FileStaysAbove(done, m, i + 1, |m.components|);
          return node, true;
        }
        node := StepDown(m, i, node, before);
        i := i + 1;
      }
      assert key[..i] == key;
    }

    // Refuses exactly the members that cannot be held together with one inserted before, for the
    // reason met first.
    method Insert(m: Member) returns (refusal: Option<Refusal>)
      requires Valid()
      modifies this, nodes.Values
      ensures refusal == RefusalOf(old(done), m)
      ensures refusal.None? <==> forall d :: d in old(done) ==> Together(d, m)
      ensures refusal.None? ==> Valid() && done == old(done) + [m] && fresh(nodes.Values - old(nodes.Values))
    {
      ghost var before := View();
      var node, blocked := Descend(m);
      RefusedIff(done, m);
      if blocked {
        return Some(BeneathFile);
      }
      EndIsTaken(View(), before, done, m);
      assert View()[m.Key()] == Label(node.terminal, node.isFile);
      if node.terminal.Some? {
        TerminalIsTwin(View(), before, done, m);
        return Some(if m.core || node.terminal.value.core then DuplicateCore else Duplicate);
      }
      ChildrenAreBelow(before, m, node);
      if !m.isDirectory && node.children != map[] {
        return Some(FileIsParent);
      }
      StillTogether(done, m);
      ghost var after := View()[m.Key() := Label(Some(m), !m.isDirectory)];
      HoldsAfter(View(), after, before, done, m);
      Finish(m, node, after);
      return None;
    }

    method Mark(m: Member, node: Node)
      requires IsTree() && m.Key() in nodes && nodes[m.Key()] == node
      modifies node`terminal, node`isFile
      ensures IsTree() && View() == old(View())[m.Key() := Label(Some(m), !m.isDirectory)]
    {
      node.terminal := Some(m);
      node.isFile := !m.isDirectory;
    }

    method Finish(m: Member, node: Node, ghost after: Labels)
      requires IsTree() && m.Key() in nodes && nodes[m.Key()] == node
      requires after == View()[m.Key() := Label(Some(m), !m.isDirectory)]
      requires Holds(after, done + [m]) && AllTogether(done + [m])
      modifies node`terminal, node`isFile, `done
      ensures Valid() && done == old(done) + [m]
    {
      Mark(m, node);
      done := done + [m];
      assert View() == after;
    }

    lemma ChildrenAreBelow(before: Labels, m: Member, node: Node)
      requires IsTree() && Holds(before, done) && Laid(View(), before, m.Key(), |m.Key()|)
      requires m.Key() in nodes && nodes[m.Key()] == node
      ensures node.children != map[] <==> MemberBelow(done, m)
    {
      if node.children != map[] {
        var c :| c in node.children;
        assert Below(m.Key(), c) in nodes;
        NodeBelow(View(), before, done, m, c);
      }
      if MemberBelow(done, m) {
        var d :| d in done && IsProperPrefix(m.Key(), d.Key());
        MemberHasNodeBelow(View(), before, done, m, d);
        assert Below(m.Key(), d.Key()[|m.Key()|]) in nodes;
      }
    }
  }
}
