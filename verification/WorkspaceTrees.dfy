/**
  Deleting a directory tree a few steps at a time.  The position in the tree is a stack of names
  that is saved after every change, so that a later call goes on where an earlier one stopped.
 */
module WorkspaceTrees {
  // A name as the program reads it, in code points; a byte that is no part of UTF-8 shows as a
  // lone surrogate.
  datatype Name = Name(text: seq<nat>)

  type Path = seq<Name>

  datatype Kind = Directory | File

  // Everything below the workspace's root; the root itself is the empty path.
  type Tree = map<Path, Kind>

  datatype State = State(tree: Tree, stack: Path)

  predicate IsDirectory(tree: Tree, p: Path) { p == [] || (p in tree && tree[p].Directory?) }

  function Parent(p: Path): Path { if |p| == 0 then [] else p[..|p| - 1] }

  ghost predicate Closed(tree: Tree) {
    [] !in tree && forall p {:trigger Parent(p)} :: p in tree ==> IsDirectory(tree, Parent(p))
  }

  // ---------------------------------------------------------------- saving and reading the stack

  // The longest stack, and the longest name in bytes, that a later call reads; the longest
  // encoded stack that is written.
  const MAX_STACK := 256
  const MAX_NAME := 255
  const MAX_SAVED := 32768

  const DOT := 46
  const SLASH := 47
  const BACKSLASH := 92

  predicate Surrogate(c: nat) { 0xD800 <= c <= 0xDFFF }

  function Utf8Length(text: seq<nat>): nat {
    if |text| == 0 then 0
    else
      var c := text[|text| - 1];
      Utf8Length(text[..|text| - 1]) + (if c < 0x80 then 1 else if c < 0x800 then 2 else if c < 0x1_0000 then 3 else 4)
  }

  // A surrogate cannot be encoded, and the reader fails on it.
  predicate ReadableName(name: Name) {
    && name.text != [] && name.text != [DOT] && name.text != [DOT, DOT]
    && SLASH !in name.text && BACKSLASH !in name.text
    && (forall c :: c in name.text ==> !Surrogate(c))
    && Utf8Length(name.text) <= MAX_NAME
  }

  predicate Readable(stack: Path) { |stack| <= MAX_STACK && forall name :: name in stack ==> ReadableName(name) }

  // The bytes of a code point in JSON that is kept to printable ASCII.
  function JsonBytes(c: nat): nat {
    if c == 34 || c == BACKSLASH || (8 <= c <= 13 && c != 11) then 2
    else if 32 <= c < 127 then 1
    else if c < 0x1_0000 then 6
    else 12
  }

  function TextBytes(text: seq<nat>): nat {
    if |text| == 0 then 0 else TextBytes(text[..|text| - 1]) + JsonBytes(text[|text| - 1])
  }

  // Every name with its quotes, and commas between.
  function NamesBytes(stack: Path): nat {
    if |stack| == 0 then 0
    else
      NamesBytes(stack[..|stack| - 1]) + TextBytes(stack[|stack| - 1].text) + 2 + (if |stack| > 1 then 1 else 0)
  }

  // The bytes around the names.
  const ENVELOPE := 24

  predicate Writable(stack: Path) { ENVELOPE + NamesBytes(stack) <= MAX_SAVED }

  lemma ParentIsWritable(stack: Path)
    requires Writable(stack)
    ensures Writable(Parent(stack))
  {
  }

  // The saved stack names a directory that is there.
  ghost predicate Good(s: State) { Closed(s.tree) && IsDirectory(s.tree, s.stack) && Writable(s.stack) }

  predicate IsChild(p: Path, directory: Path) { |p| == |directory| + 1 && p[..|directory|] == directory }

  function Children(tree: Tree, directory: Path): set<Path> {
    set p | p in tree && IsChild(p, directory)
  }

  // ---------------------------------------------------------------- one turn

  function Descend(s: State, child: Path): State { State(s.tree, child) }

  function Unlink(s: State, child: Path): State { State(s.tree - {child}, s.stack) }

  function Leave(s: State): State
    requires s.stack != []
  {
    State(s.tree - {s.stack}, Parent(s.stack))
  }

  // A directory is entered only if the longer stack can be saved.
  predicate Visit(s: State, c: Path, t: State)
    requires c in s.tree
  {
    if s.tree[c].Directory? then Writable(c) && t == Descend(s, c) else t == Unlink(s, c)
  }

  // A turn looks at whichever entry the directory lists first.
  ghost predicate Turn(s: State, t: State) {
    || (Children(s.tree, s.stack) == {} && s.stack != [] && t == Leave(s))
    || (exists c :: c in Children(s.tree, s.stack) && Visit(s, c, t))
  }

  ghost predicate Turns(s: State, t: State, n: nat)
    decreases n
  {
    if n == 0 then s == t else exists m :: Turns(s, m, n - 1) && Turn(m, t)
  }

  lemma TurnsOneMore(s: State, m: State, t: State, n: nat)
    requires Turns(s, m, n) && Turn(m, t)
    ensures Turns(s, t, n + 1)
  {
  }

  // ---------------------------------------------------------------- the work that is left

  function Files(tree: Tree): set<Path> { set p | p in tree && tree[p].File? }

  function Directories(tree: Tree): set<Path> { set p | p in tree && tree[p].Directory? }

  // Two mutations for a file; for a directory two to enter it and four to remove it.
  function Work(s: State): int { 2 * |Files(s.tree)| + 6 * |Directories(s.tree)| - 2 * |s.stack| }

  function Cost(s: State, t: State): nat {
    if |t.stack| < |s.stack| then 4 else 2
  }

  ghost predicate AllPrefixesIn(stack: Path, directories: set<Path>) {
    forall i :: 1 <= i <= |stack| ==> stack[..i] in directories
  }

  lemma {:induction false} PrefixesAreDirectories(tree: Tree, p: Path)
    requires Closed(tree) && IsDirectory(tree, p)
    ensures AllPrefixesIn(p, Directories(tree))
    decreases |p|
  {
    if |p| > 0 {
      var q := Parent(p);
      PrefixesAreDirectories(tree, q);
      forall i | 1 <= i <= |p|
        ensures p[..i] in Directories(tree)
      {
        if i < |p| {
          assert p[..i] == q[..i];
        } else {
          assert p[..i] == p;
        }
      }
    }
  }

  lemma {:induction false} StackWithinDirectories(stack: Path, directories: set<Path>)
    requires AllPrefixesIn(stack, directories)
    ensures |stack| <= |directories|
    decreases |stack|
  {
    if |stack| > 0 {
      var shorter := stack[..|stack| - 1];
      assert stack[..|stack|] == stack;
      forall i | 1 <= i <= |shorter|
        ensures shorter[..i] in directories - {stack}
      {
        assert shorter[..i] == stack[..i];
      }
      StackWithinDirectories(shorter, directories - {stack});
    }
  }

  lemma WorkIsLeft(s: State)
    requires Good(s)
    ensures Work(s) >= 4 * |Directories(s.tree)| + 2 * |Files(s.tree)|
  {
    PrefixesAreDirectories(s.tree, s.stack);
    StackWithinDirectories(s.stack, Directories(s.tree));
  }

  lemma CountsAfterRemoval(tree: Tree, p: Path)
    requires p in tree
    ensures |Files(tree - {p})| == |Files(tree)| - (if tree[p].File? then 1 else 0)
    ensures |Directories(tree - {p})| == |Directories(tree)| - (if tree[p].Directory? then 1 else 0)
  {
    assert Files(tree - {p}) == Files(tree) - {p};
    assert Directories(tree - {p}) == Directories(tree) - {p};
  }

  // Only a directory holds anything, so an entry without children can go.
  lemma RemovalKeepsClosed(tree: Tree, p: Path)
    requires Closed(tree) && p in tree && Children(tree, p) == {}
    ensures Closed(tree - {p})
  {
    forall q | q in tree && q != p
      ensures IsDirectory(tree - {p}, Parent(q))
    {
      assert q !in Children(tree, p);
    }
  }

  lemma UnlinkKeeps(s: State, c: Path)
    requires Good(s) && c in Children(s.tree, s.stack) && s.tree[c].File?
    ensures Good(Unlink(s, c)) && Work(Unlink(s, c)) == Work(s) - 2
  {
    CountsAfterRemoval(s.tree, c);
    forall q | q in s.tree
      ensures !IsChild(q, c)
    {
      assert IsDirectory(s.tree, Parent(q));
    }
    assert Children(s.tree, c) == {};
    RemovalKeepsClosed(s.tree, c);
  }

  lemma LeaveKeeps(s: State)
    requires Good(s) && Children(s.tree, s.stack) == {} && s.stack != []
    ensures Good(Leave(s)) && Work(Leave(s)) == Work(s) - 4
  {
    CountsAfterRemoval(s.tree, s.stack);
    RemovalKeepsClosed(s.tree, s.stack);
  }

  // Every turn keeps the stack naming a directory that is there, and does exactly as much of the
  // work as it spends.
  lemma TurnKeeps(s: State, t: State)
    requires Good(s) && Turn(s, t)
    ensures Good(t) && Work(t) + Cost(s, t) == Work(s)
    ensures forall p :: p in t.tree ==> p in s.tree && t.tree[p] == s.tree[p]
  {
    if Children(s.tree, s.stack) == {} {
      LeaveKeeps(s);
    } else {
      var c :| c in Children(s.tree, s.stack) && Visit(s, c, t);
      if s.tree[c].File? {
        UnlinkKeeps(s, c);
      }
    }
  }

  lemma {:induction false} SomethingAtTheTop(tree: Tree, p: Path)
    requires Closed(tree) && p in tree
    ensures Children(tree, []) != {}
    decreases |p|
  {
    if |p| == 1 {
      assert p in Children(tree, []);
    } else {
      SomethingAtTheTop(tree, Parent(p));
    }
  }

  lemma OneMoreTurn(start: State, s: State, t: State, n: nat)
    requires Good(s) && Turns(start, s, n) && Turn(s, t)
    ensures Good(t) && Turns(start, t, n + 1) && Work(t) + Cost(s, t) == Work(s) && Work(t) >= 0
  {
    TurnKeeps(s, t);
    WorkIsLeft(t);
    TurnsOneMore(start, s, t, n);
  }

  // When nothing is left to do, nothing is left.
  lemma FinishedMeansEmpty(s: State)
    requires Good(s) && s.stack == [] && Children(s.tree, []) == {}
    ensures s.tree == map[]
  {
    if s.tree != map[] {
      var p :| p in s.tree;
      SomethingAtTheTop(s.tree, p);
    }
  }

  // ---------------------------------------------------------------- positions that cannot be kept

  ghost predicate HasDirectory(tree: Tree, p: Path) { p in tree && tree[p].Directory? }

  // Some order of the listings and some interruption leave a stack that no later call will read.
  ghost predicate CanJam(tree: Tree) {
    exists t: State, n: nat :: Turns(State(tree, []), t, n) && !Readable(t.stack)
  }

  // Some order of the listings leads before a directory whose position cannot be saved.
  ghost predicate CanOverflow(tree: Tree) {
    exists t: State, n: nat, c: Path :: Turns(State(tree, []), t, n) && Refuses(t, c)
  }

  ghost predicate Refuses(t: State, c: Path) {
    c in Children(t.tree, t.stack) && HasDirectory(t.tree, c) && !Writable(c)
  }

  ghost predicate AllReadable(tree: Tree) {
    forall p :: HasDirectory(tree, p) && Writable(p) ==> Readable(p)
  }

  ghost predicate AllWritable(tree: Tree) {
    forall p :: HasDirectory(tree, p) ==> Writable(p)
  }

  lemma {:induction false} TurnsKeep(s: State, t: State, n: nat)
    requires Good(s) && Turns(s, t, n)
    ensures Good(t) && forall p :: p in t.tree ==> p in s.tree && t.tree[p] == s.tree[p]
    decreases n
  {
    if n > 0 {
      var m :| Turns(s, m, n - 1) && Turn(m, t);
      TurnsKeep(s, m, n - 1);
      TurnKeeps(m, t);
    }
  }

  lemma {:induction false} CanDescend(tree: Tree, p: Path)
    requires Closed(tree) && IsDirectory(tree, p) && Writable(p)
    ensures Turns(State(tree, []), State(tree, p), |p|)
    decreases |p|
  {
    if |p| > 0 {
      var q := Parent(p);
      ParentIsWritable(p);
      CanDescend(tree, q);
      assert p in Children(tree, q) && Visit(State(tree, q), p, State(tree, p));
      assert Turn(State(tree, q), State(tree, p));
    }
  }

  // A stack that no later call can read is possible exactly when some directory's position can
  // be written but not read: it lies too deep, or a name on the way to it is one that the reader
  // refuses though the directory may have it.
  lemma JamsIffUnreadable(tree: Tree)
    requires Closed(tree)
    ensures CanJam(tree) <==> !AllReadable(tree)
  {
    if CanJam(tree) {
      var t: State, n: nat :| Turns(State(tree, []), t, n) && !Readable(t.stack);
      TurnsKeep(State(tree, []), t, n);
      assert HasDirectory(tree, t.stack);
    }
    if !AllReadable(tree) {
      var p :| HasDirectory(tree, p) && Writable(p) && !Readable(p);
      CanDescend(tree, p);
    }
  }

  // On the way to a position that cannot be saved lies the first such one.
  lemma {:induction false} FirstUnwritable(tree: Tree, p: Path) returns (c: Path)
    requires Closed(tree) && HasDirectory(tree, p) && !Writable(p)
    ensures c != [] && HasDirectory(tree, c) && !Writable(c) && Writable(Parent(c))
    decreases |p|
  {
    if Writable(Parent(p)) {
      c := p;
    } else {
      assert HasDirectory(tree, Parent(p));
      c := FirstUnwritable(tree, Parent(p));
    }
  }

  // A position that cannot be saved comes up exactly when some directory has one.
  lemma OverflowsIffUnwritable(tree: Tree)
    requires Closed(tree)
    ensures CanOverflow(tree) <==> !AllWritable(tree)
  {
    if CanOverflow(tree) {
      var t: State, n: nat, c: Path :| Turns(State(tree, []), t, n) && Refuses(t, c);
      TurnsKeep(State(tree, []), t, n);
      assert HasDirectory(tree, c);
    }
    if !AllWritable(tree) {
      var p :| HasDirectory(tree, p) && !Writable(p);
      var c := FirstUnwritable(tree, p);
      CanDescend(tree, Parent(c));
      assert Refuses(State(tree, Parent(c)), c);
    }
  }

  // And such a directory is never removed, in however many calls.
  lemma {:induction false} UnwritableStays(s: State, t: State, n: nat, p: Path)
    requires Good(s) && Turns(s, t, n) && HasDirectory(s.tree, p) && !Writable(p)
    ensures HasDirectory(t.tree, p)
    decreases n
  {
    if n > 0 {
      var m :| Turns(s, m, n - 1) && Turn(m, t);
      TurnsKeep(s, m, n - 1);
      UnwritableStays(s, m, n - 1, p);
    }
  }

  // One directory directly below the root whose name has a backslash in it is enough.
  lemma BackslashJams()
    ensures var tree: Tree := map[[Name([97, BACKSLASH, 98])] := Directory];
      Closed(tree) && CanJam(tree)
  {
    var name := Name([97, BACKSLASH, 98]);
    var tree: Tree := map[[name] := Directory];
    assert Parent([name]) == [];
    assert [97, BACKSLASH][..1] == [97] && TextBytes([97]) == 1;
    assert name.text[..2] == [97, BACKSLASH] && TextBytes([97, BACKSLASH]) == 3;
    assert NamesBytes([name]) == 6;
    assert name in [name] && !ReadableName(name);
    assert HasDirectory(tree, [name]) && Writable([name]) && !Readable([name]);
    JamsIffUnreadable(tree);
  }

  // So many directories, each in the one before, all of the same name.
  function Chain(name: Name, n: nat): Path { seq(n, _ => name) }

  function Nest(name: Name, n: nat): Tree { map k: nat | 1 <= k <= n :: Chain(name, k) := Directory }

  lemma ChainBytes(name: Name, n: nat)
    ensures NamesBytes(Chain(name, n)) == if n == 0 then 0 else n * (TextBytes(name.text) + 3) - 1
  {
    if n > 0 {
      assert Chain(name, n)[..n - 1] == Chain(name, n - 1);
      ChainBytes(name, n - 1);
    }
  }

  lemma NestIsClosed(name: Name, n: nat)
    ensures Closed(Nest(name, n))
  {
    forall p | p in Nest(name, n)
      ensures IsDirectory(Nest(name, n), Parent(p))
    {
      var k: nat :| 1 <= k <= n && p == Chain(name, k);
      assert Parent(p) == Chain(name, k - 1);
    }
  }

  // Directories nested one deeper than the reader goes jam it.
  lemma DepthJams()
    ensures Closed(Nest(Name([97]), 257)) && CanJam(Nest(Name([97]), 257))
  {
    var name := Name([97]);
    NestIsClosed(name, 257);
    assert TextBytes([97]) == 1;
    ChainBytes(name, 257);
    assert HasDirectory(Nest(name, 257), Chain(name, 257)) && Writable(Chain(name, 257)) && !Readable(Chain(name, 257));
    JamsIffUnreadable(Nest(name, 257));
  }

  // ---------------------------------------------------------------- names of one character, repeated

  function Repeated(c: nat, n: nat): seq<nat> { seq(n, _ => c) }

  lemma RepeatedBytes(c: nat, n: nat)
    ensures TextBytes(Repeated(c, n)) == n * JsonBytes(c)
    ensures Utf8Length(Repeated(c, n)) == n * (if c < 0x80 then 1 else if c < 0x800 then 2 else if c < 0x1_0000 then 3 else 4)
  {
    if n > 0 {
      assert Repeated(c, n)[..n - 1] == Repeated(c, n - 1) && Repeated(c, n)[n - 1] == c;
      RepeatedBytes(c, n - 1);
    }
  }

  lemma {:induction false} ShorterIsWritable(name: Name, k: nat, n: nat)
    requires k <= n && Writable(Chain(name, n))
    ensures Writable(Chain(name, k))
    decreases n
  {
    if k < n {
      assert Parent(Chain(name, n)) == Chain(name, n - 1);
      ParentIsWritable(Chain(name, n));
      ShorterIsWritable(name, k, n - 1);
    }
  }

  // A nest of equal names has a position that cannot be saved exactly if its whole depth is one.
  lemma NestOverflowsIff(name: Name, n: nat)
    requires n > 0
    ensures CanOverflow(Nest(name, n)) <==> !Writable(Chain(name, n))
  {
    NestIsClosed(name, n);
    OverflowsIffUnwritable(Nest(name, n));
    assert Chain(name, n) in Nest(name, n);
    if Writable(Chain(name, n)) {
      forall p | HasDirectory(Nest(name, n), p)
        ensures Writable(p)
      {
        var k: nat :| 1 <= k <= n && p == Chain(name, k);
        ShorterIsWritable(name, k, n);
      }
    } else {
      assert HasDirectory(Nest(name, n), Chain(name, n));
    }
  }

  // A hundred and twenty-seven nested directories with names of 255 letters, each one readable,
  // have a position that cannot be saved.
  lemma LongNamesOverflow()
    ensures var name := Name(Repeated(97, 255));
      ReadableName(name) && Closed(Nest(name, 127)) && CanOverflow(Nest(name, 127))
  {
    var name := Name(Repeated(97, 255));
    RepeatedBytes(97, 255);
    assert name.text[0] == 97 && |name.text| == 255;
    NestIsClosed(name, 127);
    ChainBytes(name, 127);
    NestOverflowsIff(name, 127);
  }

  // Characters of two bytes in a file name take six in the saved position, those of four bytes
  // twelve, so that it overflows long before the reader's limit of 256 names.
  lemma AccentedNamesOverflow(c: nat)
    requires 0x80 <= c < 0x800
    ensures var name := Name(Repeated(c, 127));
      ReadableName(name) && CanOverflow(Nest(name, 43)) && !CanOverflow(Nest(name, 42))
  {
    RepeatedBytes(c, 127);
    assert Repeated(c, 127)[0] == c;
    ChainBytes(Name(Repeated(c, 127)), 43);
    ChainBytes(Name(Repeated(c, 127)), 42);
    NestOverflowsIff(Name(Repeated(c, 127)), 43);
    NestOverflowsIff(Name(Repeated(c, 127)), 42);
  }

  lemma WideNamesOverflow(c: nat)
    requires 0x1_0000 <= c
    ensures var name := Name(Repeated(c, 63));
      ReadableName(name) && CanOverflow(Nest(name, 44)) && !CanOverflow(Nest(name, 43))
  {
    RepeatedBytes(c, 63);
    assert Repeated(c, 63)[0] == c;
    ChainBytes(Name(Repeated(c, 63)), 44);
    ChainBytes(Name(Repeated(c, 63)), 43);
    NestOverflowsIff(Name(Repeated(c, 63)), 44);
    NestOverflowsIff(Name(Repeated(c, 63)), 43);
  }

  // One directory whose name is not UTF-8 is enough to jam.
  lemma SurrogateJams(c: nat)
    requires 0xD800 <= c <= 0xDFFF
    ensures var tree: Tree := map[[Name([c])] := Directory]; Closed(tree) && CanJam(tree)
  {
    var name := Name([c]);
    var tree: Tree := map[[name] := Directory];
    assert Parent([name]) == [] && name.text[..0] == [] && TextBytes(name.text) == 6;
    assert NamesBytes([name]) == 8;
    assert c in name.text && name in [name] && !ReadableName(name);
    assert HasDirectory(tree, [name]) && Writable([name]) && !Readable([name]);
    JamsIffUnreadable(tree);
  }
}
