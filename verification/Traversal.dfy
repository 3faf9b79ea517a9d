/** Collecting the regular files of a directory tree. */
module Traversal {
  import opened Bytes
  import opened Results
  import opened FileSystem
  import opened Quarantine
  import opened PathKeys
  import opened Order

  predicate AtOrBelow(root: Location, l: Location) {
    |root| <= |l| && l[..|root|] == root
  }

  predicate Below(root: Location, l: Location) {
    |root| < |l| && l[..|root|] == root
  }

  /** The regular files of the tree, without saying how they are found. */
  ghost function FilesBelow(d: Disk, root: Location): set<Location> {
    set l | l in d.dir && Below(root, l) && d.dir[l].File?
  }

  /** Neither a regular file nor a directory. */
  predicate Refused(node: Node) {
    node.Symlink? || node.Special?
  }

  ghost predicate RefusedBelow(d: Disk, root: Location) {
    exists l :: l in d.dir && Below(root, l) && Refused(d.dir[l])
  }

  function Children(d: Disk, current: Location): set<Location> {
    set l | l in d.dir && |l| == |current| + 1 && l[..|current|] == current
  }

  /** A directory listing, in any order. */
  method ReadDir(d: Disk, current: Location) returns (entries: seq<Location>)
    ensures NoRepeats(entries) && forall l :: l in entries <==> l in Children(d, current)
  {
    var left := Children(d, current);
    entries := [];
    while left != {}
      invariant left <= Children(d, current) && NoRepeats(entries)
      invariant forall l :: l in Children(d, current) <==> l in left || l in entries
      invariant forall l :: l in entries ==> l !in left
      decreases |left|
    {
      var l :| l in left;
      left, entries := left - {l}, entries + [l];
    }
  }

  /** A system call that may fail without cause. */
  method Works(flaky: bool) returns (works: bool)
    ensures !works ==> flaky
  {
    works := *;
    works := works || !flaky;
  }

  /** Sorts the entries of one directory into subdirectories and files; links are refused. */
  method ScanDirectory(d: Disk, root: Location, current: Location, flaky: bool)
    returns (r: Result<()>, subs: seq<Location>, files: seq<Location>)
    requires Tree(d) && NodeAt(d, current) == Some(Directory) && AtOrBelow(root, current)
    ensures r.Ok? ==>
      && NoRepeats(subs) && NoRepeats(files)
      && (forall l :: l in Children(d, current) ==> !Refused(d.dir[l]))
      && (forall l :: l in subs <==> l in Children(d, current) && d.dir[l].Directory?)
      && (forall l :: l in files <==> l in Children(d, current) && d.dir[l].File?)
    ensures r.Err? && !flaky ==> exists l :: l in Children(d, current) && Refused(d.dir[l])
    ensures r.Err? ==> r.error.IoError? || r.error == UnsafePath
  {
    hide Canonicalize, Tree;
    subs, files := [], [];
    var works := Works(flaky);
    if !works {
      return Err(IoError(OtherIo)), subs, files;
    }
    var entries := ReadDir(d, current);
    for i := 0 to |entries|
      invariant NoRepeats(subs) && NoRepeats(files)
      invariant forall l :: l in subs ==> l in entries[..i] && l in d.dir && d.dir[l].Directory?
      invariant forall l :: l in files ==> l in entries[..i] && l in d.dir && d.dir[l].File?
      invariant forall k :: 0 <= k < i ==> Filed(d, entries[k], subs, files)
    {
      var path := entries[i];
      assert path in Children(d, current) && path !in entries[..i];
      match d.dir[path] {
        case Symlink(_) => return Err(UnsafePath), subs, files;
        case Special => return Err(UnsafePath), subs, files;
        case Directory =>
          CanonToDirectory(d, path);
          var canonical := Canonicalize(d, AsPath(path)).value;
          if !AtOrBelow(root, canonical) {
            return Err(UnsafePath), subs, files;
          }
          subs := subs + [canonical];
        case File(_) => files := files + [path];
      }
    }
    r := Ok(());
  }

  /** The entry went where it belongs. */
  ghost predicate Filed(d: Disk, l: Location, subs: seq<Location>, files: seq<Location>) {
    && l in d.dir && !Refused(d.dir[l])
    && (d.dir[l].Directory? ==> l in subs) && (d.dir[l].File? ==> l in files)
  }

  /** A directory is its own canonical form. */
  lemma CanonToDirectory(d: Disk, l: Location)
    requires Tree(d) && NodeAt(d, l) == Some(Directory)
    ensures Canonicalize(d, AsPath(l)) == Ok(l)
  {
    hide Canon, NodeAt;
    assert [] + l == l;
    CanonDown(d, [], l, MAX_LINK_DEPTH);
  }

  lemma {:induction false} CanonDown(d: Disk, base: Location, names: Location, fuel: nat)
    requires Tree(d) && NodeAt(d, base + names) == Some(Directory)
    ensures Canon(d, base, AsPath(names), fuel) == Ok(base + names)
    decreases |names|
  {
    hide Canon, NodeAt, Tree;
    var whole := base + names;
    if names == [] {
      assert whole == base && AsPath(names) == [];
      CanonEmpty(d, base, fuel);
    } else {
      var next, rest := base + [names[0]], names[1..];
      assert next + rest == whole && whole[..|next|] == next;
      if rest == [] {
        assert next == whole;
      } else {
        DirectoriesAbove(d, whole, |next|);
      }
      CanonEnter(d, base, names, fuel);
      CanonDown(d, next, rest, fuel);
    }
  }

  lemma CanonEnter(d: Disk, base: Location, names: Location, fuel: nat)
    requires names != [] && NodeAt(d, base + [names[0]]) == Some(Directory)
    ensures Canon(d, base, AsPath(names), fuel) == Canon(d, base + [names[0]], AsPath(names[1..]), fuel)
  {
    assert AsPath(names)[1..] == AsPath(names[1..]);
  }

  // ------------------------------------------------------------ the stack loop

  /** Directories of the tree, none of them inside another. */
  ghost predicate StackOk(d: Disk, root: Location, stack: seq<Location>) {
    && NoRepeats(stack)
    && (forall s :: s in stack ==> AtOrBelow(root, s) && NodeAt(d, s) == Some(Directory))
    && (forall s, t :: s in stack && t in stack && s != t ==> !AtOrBelow(s, t))
  }

  /** Files of the tree, each once, none of them still ahead. */
  ghost predicate FilesOk(d: Disk, root: Location, stack: seq<Location>, files: seq<Location>) {
    && NoRepeats(files) && (forall l :: l in files ==> l in FilesBelow(d, root))
    && (forall l, s :: l in files && s in stack ==> !Below(s, l))
  }

  /** Whatever is no directory was collected, as a file, or is still ahead. */
  ghost predicate Covered(d: Disk, root: Location, stack: seq<Location>, files: seq<Location>) {
    forall l :: l in d.dir && Below(root, l) && !d.dir[l].Directory? ==>
      (l in files && d.dir[l].File?) || exists s :: s in stack && Below(s, l)
  }

  /** The directories still to be read. */
  ghost function Ahead(d: Disk, stack: seq<Location>): set<Location> {
    set l | l in d.dir.Keys + {[]} && exists s :: s in stack && AtOrBelow(s, l)
  }

  ghost predicate Scanned(d: Disk, current: Location, subs: seq<Location>, fs: seq<Location>) {
    && NoRepeats(subs) && NoRepeats(fs)
    && (forall l :: l in Children(d, current) ==> !Refused(d.dir[l]))
    && (forall l :: l in subs <==> l in Children(d, current) && d.dir[l].Directory?)
    && (forall l :: l in fs <==> l in Children(d, current) && d.dir[l].File?)
  }

  /** An ancestor of a child is the directory itself or one of its ancestors. */
  lemma AboveChild(a: Location, current: Location, child: Location)
    requires |child| == |current| + 1 && child[..|current|] == current
    ensures AtOrBelow(a, child) <==> AtOrBelow(a, current) || a == child
    ensures Below(a, child) <==> AtOrBelow(a, current)
    ensures Below(current, child)
  {
    if |a| <= |current| {
      assert child[..|a|] == current[..|a|];
    } else if AtOrBelow(a, child) {
      assert a == child[..|child|] == child;
    }
  }

  lemma BelowTransitive(a: Location, b: Location, c: Location)
    ensures AtOrBelow(a, b) && AtOrBelow(b, c) ==> AtOrBelow(a, c)
    ensures AtOrBelow(a, b) && Below(b, c) ==> Below(a, c)
  {
    if AtOrBelow(a, b) && AtOrBelow(b, c) {
      assert c[..|a|] == c[..|b|][..|a|];
    }
  }

  /** What lies below a directory is one of its entries or lies below one of its subdirectories. */
  lemma ChildOnTheWay(d: Disk, current: Location, l: Location) returns (child: Location)
    requires Tree(d) && l in d.dir && Below(current, l)
    ensures child in Children(d, current) && AtOrBelow(child, l)
    ensures child == l || (d.dir[child].Directory? && Below(child, l))
  {
    child := l[..|current| + 1];
    assert child[..|current|] == l[..|current|];
    if |l| > |current| + 1 {
      DirectoriesAbove(d, l, |current| + 1);
    } else {
      assert child == l;
    }
  }

  lemma Popped(stack: seq<Location>, s: Location)
    requires stack != [] && NoRepeats(stack)
    ensures s in stack[..|stack| - 1] <==> s in stack && s != stack[|stack| - 1]
  {
    if s in stack && s != stack[|stack| - 1] {
      var i :| 0 <= i < |stack| && stack[i] == s;
      assert stack[..|stack| - 1][i] == s;
    }
  }

  /** Whether a remaining or new directory is on the way to something. */
  lemma NewStack(d: Disk, root: Location, stack: seq<Location>, subs: seq<Location>, s: Location)
    requires Tree(d) && stack != [] && StackOk(d, root, stack) && s in stack[..|stack| - 1] + subs
    requires forall l :: l in subs ==> l in Children(d, stack[|stack| - 1]) && d.dir[l].Directory?
    ensures AtOrBelow(root, s) && NodeAt(d, s) == Some(Directory)
    ensures if s in subs then s in Children(d, stack[|stack| - 1])
            else s in stack && s != stack[|stack| - 1] && !AtOrBelow(s, stack[|stack| - 1])
  {
    var current := stack[|stack| - 1];
    if s in subs {
      AboveChild(root, current, s);
    } else {
      Popped(stack, s);
    }
  }

  lemma StackStep(d: Disk, root: Location, stack: seq<Location>, subs: seq<Location>)
    requires Tree(d) && stack != [] && StackOk(d, root, stack) && NoRepeats(subs)
    requires forall l :: l in subs ==> l in Children(d, stack[|stack| - 1]) && d.dir[l].Directory?
    ensures StackOk(d, root, stack[..|stack| - 1] + subs)
  {
    var n, current := |stack| - 1, stack[|stack| - 1];
    var stack' := stack[..n] + subs;
    forall s | s in stack'
      ensures AtOrBelow(root, s) && NodeAt(d, s) == Some(Directory)
    {
      NewStack(d, root, stack, subs, s);
    }
    forall s, t | s in stack' && t in stack' && s != t
      ensures !AtOrBelow(s, t)
    {
      NewStack(d, root, stack, subs, s);
      NewStack(d, root, stack, subs, t);
      if t in subs {
        AboveChild(s, current, t);
      } else if s in subs && AtOrBelow(s, t) {
        AboveChild(current, current, s);
        BelowTransitive(current, s, t);
        assert false;
      }
    }
    forall i, j | 0 <= i < j < |stack'|
      ensures stack'[i] != stack'[j]
    {
      if i < n <= j {
        NewStack(d, root, stack, subs, stack'[i]);
        assert stack'[i] in stack[..n] && stack'[j] in subs;
        Popped(stack, stack'[i]);
        AboveChild(current, current, stack'[j]);
        assert AtOrBelow(current, stack'[j]);
      }
    }
  }

  lemma FilesStep(d: Disk, root: Location, stack: seq<Location>, files: seq<Location>, subs: seq<Location>,
                  fs: seq<Location>)
    requires Tree(d) && stack != [] && StackOk(d, root, stack) && FilesOk(d, root, stack, files)
    requires Scanned(d, stack[|stack| - 1], subs, fs)
    ensures FilesOk(d, root, stack[..|stack| - 1] + subs, files + fs)
  {
    var current := stack[|stack| - 1];
    var stack', files' := stack[..|stack| - 1] + subs, files + fs;
    forall l | l in fs
      ensures l in FilesBelow(d, root) && l !in files
    {
      AboveChild(root, current, l);
      AboveChild(current, current, l);
    }
    forall i, j | 0 <= i < j < |files'|
      ensures files'[i] != files'[j]
    {
      if i < |files| <= j {
        assert files'[i] in files && files'[j] in fs;
      }
    }
    forall l, s | l in files' && s in stack'
      ensures !Below(s, l)
    {
      NewStack(d, root, stack, subs, s);
      if l in fs {
        AboveChild(s, current, l);
      } else if s in subs {
        AboveChild(current, current, s);
        BelowTransitive(current, s, l);
      }
    }
  }

  lemma CoverStep(d: Disk, root: Location, stack: seq<Location>, files: seq<Location>, subs: seq<Location>,
                  fs: seq<Location>)
    requires Tree(d) && stack != [] && StackOk(d, root, stack) && Covered(d, root, stack, files)
    requires Scanned(d, stack[|stack| - 1], subs, fs)
    ensures Covered(d, root, stack[..|stack| - 1] + subs, files + fs)
  {
    var current := stack[|stack| - 1];
    var stack', files' := stack[..|stack| - 1] + subs, files + fs;
    forall l | l in d.dir && Below(root, l) && !d.dir[l].Directory?
      ensures (l in files' && d.dir[l].File?) || exists s :: s in stack' && Below(s, l)
    {
      if !(l in files && d.dir[l].File?) {
        var s :| s in stack && Below(s, l);
        if s == current {
          var child := ChildOnTheWay(d, current, l);
          assert child == l || (child in stack' && Below(child, l));
        } else {
          Popped(stack, s);
          assert s in stack';
        }
      }
    }
  }

  lemma AheadStep(d: Disk, root: Location, stack: seq<Location>, subs: seq<Location>)
    requires Tree(d) && stack != [] && StackOk(d, root, stack)
    requires forall l :: l in subs ==> l in Children(d, stack[|stack| - 1]) && d.dir[l].Directory?
    ensures Ahead(d, stack[..|stack| - 1] + subs) < Ahead(d, stack)
  {
    var current := stack[|stack| - 1];
    var stack' := stack[..|stack| - 1] + subs;
    forall l | l in Ahead(d, stack')
      ensures l in Ahead(d, stack)
    {
      var s :| s in stack' && AtOrBelow(s, l);
      NewStack(d, root, stack, subs, s);
      if s in subs {
        AboveChild(current, current, s);
        BelowTransitive(current, s, l);
        assert current in stack && AtOrBelow(current, l);
      }
    }
    assert current in stack && AtOrBelow(current, current);
    assert current in Ahead(d, stack);
    forall s | s in stack'
      ensures !AtOrBelow(s, current)
    {
      NewStack(d, root, stack, subs, s);
    }
  }

  /** What a traversal answers: the files below the root, sorted, each once. */
  ghost predicate Listing(d: Disk, root: Location, files: seq<Location>) {
    && Sorted(PathOrder(), files) && NoRepeats(files)
    && forall l :: l in files <==> l in FilesBelow(d, root)
  }

  /** Bytes within names, names within paths. */
  function PathOrder(): (Location, Location) -> bool {
    Lex(Lex((a: byte, b: byte) => a <= b))
  }

  lemma PathOrderTotal()
    ensures TotalOrder(PathOrder())
  {
    var bytes := (a: byte, b: byte) => a <= b;
    assert TotalOrder(bytes);
    LexOrder(bytes);
    LexOrder(Lex(bytes));
  }

  lemma {:induction false} SetOfNoRepeats(s: seq<Location>, x: Location)
    requires NoRepeats(s)
    ensures multiset(s)[x] == if x in s then 1 else 0
  {
    if s != [] {
      var rest := s[1..];
      assert s == [s[0]] + rest;
      SetOfNoRepeats(rest, x);
    }
  }

  lemma {:induction false} OncePerElement(s: seq<Location>)
    requires forall x :: x in multiset(s) ==> multiset(s)[x] == 1
    ensures NoRepeats(s)
  {
    forall i, j | 0 <= i < j < |s|
      ensures s[i] != s[j]
    {
      var front, back := multiset(s[..j]), multiset(s[j..]);
      assert s == s[..j] + s[j..];
      assert multiset(s) == front + back;
      assert s[j] == s[j..][0] && s[j] in back;
      assert s[i] == s[..j][i] && s[i] in front;
      assert s[j] in multiset(s) && front[s[j]] == 0;
    }
  }

  /** There is only one listing, so the order in which directories are read does not matter. */
  lemma ListingUnique(d: Disk, root: Location, a: seq<Location>, b: seq<Location>)
    requires Listing(d, root, a) && Listing(d, root, b)
    ensures a == b
  {
    hide PathOrder, FilesBelow;
    PathOrderTotal();
    forall x: Location
      ensures multiset(a)[x] == multiset(b)[x]
    {
      SetOfNoRepeats(a, x);
      SetOfNoRepeats(b, x);
    }
    assert multiset(a) == multiset(b);
    SortedUnique(PathOrder(), a, b);
  }

  /** Sorting a collection of the right files makes a listing. */
  lemma SortedListing(d: Disk, root: Location, files: seq<Location>)
    requires NoRepeats(files) && forall l :: l in files <==> l in FilesBelow(d, root)
    ensures Listing(d, root, Sort(PathOrder(), files))
  {
    hide PathOrder, FilesBelow;
    PathOrderTotal();
    SortSorts(PathOrder(), files);
    var t := Sort(PathOrder(), files);
    forall x | x in multiset(t)
      ensures multiset(t)[x] == 1
    {
      SetOfNoRepeats(files, x);
    }
    OncePerElement(t);
    forall l
      ensures l in t <==> l in files
    {
      assert l in t <==> l in multiset(t);
      assert l in files <==> l in multiset(files);
    }
  }

  /** The stack loop: on any tree, with directories read in any order, it ends, and it answers the listing exactly
      when nothing below the root is a link or special. */
  method CollectBelow(d: Disk, root: Location, flaky: bool) returns (r: Result<seq<Location>>)
    requires Tree(d) && NodeAt(d, root) == Some(Directory)
    ensures r.Ok? ==> !RefusedBelow(d, root) && Listing(d, root, r.value)
    ensures !flaky ==> (r.Ok? <==> !RefusedBelow(d, root))
    ensures r.Err? ==> r.error.IoError? || r.error == UnsafePath
  {
    hide Tree, NodeAt, PathOrder;
    var files: seq<Location> := [];
    var stack := [root];
    while stack != []
      invariant StackOk(d, root, stack) && FilesOk(d, root, stack, files) && Covered(d, root, stack, files)
      decreases Ahead(d, stack)
    {
      var current := stack[|stack| - 1];
      var scanned, subs, fs := ScanDirectory(d, root, current, flaky);
      if scanned.Err? {
        if !flaky {
          RefusedFound(d, root, current);
        }
        return Err(scanned.error);
      }
      StackStep(d, root, stack, subs);
      FilesStep(d, root, stack, files, subs, fs);
      CoverStep(d, root, stack, files, subs, fs);
      AheadStep(d, root, stack, subs);
      stack, files := stack[..|stack| - 1] + subs, files + fs;
    }
    SortedListing(d, root, files);
    r := Ok(Sort(PathOrder(), files));
  }

  lemma RefusedFound(d: Disk, root: Location, current: Location)
    requires AtOrBelow(root, current) && exists l :: l in Children(d, current) && Refused(d.dir[l])
    ensures RefusedBelow(d, root)
  {
    var l :| l in Children(d, current) && Refused(d.dir[l]);
    AboveChild(root, current, l);
  }

  /** All regular files below a directory given by any spelling of its path. */
  method CollectFilesRecursive(d: Disk, dir: Path, flaky: bool) returns (r: Result<seq<Location>>)
    requires Tree(d)
    ensures r.Ok? ==>
      && LstatPath(d, dir) == Ok(Directory) && Canonicalize(d, dir).Ok?
      && !RefusedBelow(d, Canonicalize(d, dir).value) && Listing(d, Canonicalize(d, dir).value, r.value)
    ensures !flaky ==>
      (r.Ok? <==> LstatPath(d, dir) == Ok(Directory) && Canonicalize(d, dir).Ok?
                  && !RefusedBelow(d, Canonicalize(d, dir).value))
    ensures !flaky && LstatPath(d, dir).Ok? && LstatPath(d, dir).value.File? ==> r == Err(NotADirectory)
    ensures r.Err? ==> !r.error.OutputCollision?
  {
    hide Canonicalize, LstatPath, Tree;
    var works := Works(flaky);
    if !works {
      return Err(IoError(OtherIo));
    }
    var seen := LstatPath(d, dir);
    if seen.Err? {
      return Err(if seen.error == IoError(NotFound) then FileNotFound else seen.error);
    }
    if seen.value.Symlink? {
      return Err(UnsafePath);
    }
    if !seen.value.Directory? {
      return Err(NotADirectory);
    }
    LstatResolves(d, dir);
    r := CollectBelow(d, Canonicalize(d, dir).value, flaky);
  }
}
