/** Path resolution, and the keys by which differently spelled paths are compared. */
module PathKeys {
  import opened Bytes
  import opened Results
  import opened FileSystem
  import opened Quarantine
  import opened Names

  datatype Component = CurDir | ParentDir | Normal(name: Name)

  /** An absolute path as it was spelled. */
  type Path = seq<Component>

  function AsPath(l: Location): (p: Path)
    ensures |p| == |l|
  {
    seq(|l|, i requires 0 <= i < |l| => Normal(l[i]))
  }

  /** One component further. */
  function Step1(l: Location, c: Component): Location {
    match c
    case CurDir => l
    case ParentDir => Parent(l)
    case Normal(n) => l + [n]
  }

  /** The place a path spells when `..` is taken literally. */
  function Lexical(p: Path): Location {
    if p == [] then [] else Step1(Lexical(p[..|p| - 1]), p[|p| - 1])
  }

  method LexicalForm(absolute: Path) returns (lexical: Location)
    ensures lexical == Lexical(absolute)
  {
    lexical := [];
    for i := 0 to |absolute|
      invariant lexical == Lexical(absolute[..i])
    {
      assert absolute[..i + 1][..i] == absolute[..i];
      match absolute[i]
      case CurDir =>
      case ParentDir =>
        if lexical != [] {
          lexical := lexical[..|lexical| - 1];
        }
      case Normal(n) =>
        lexical := lexical + [n];
    }
    assert absolute[..|absolute|] == absolute;
  }

  lemma {:induction false} LexicalOfNormal(l: Location)
    ensures Lexical(AsPath(l)) == l
  {
    if l != [] {
      assert AsPath(l)[..|l| - 1] == AsPath(l[..|l| - 1]);
      LexicalOfNormal(l[..|l| - 1]);
    }
  }

  /** Only the place reached matters for what follows. */
  lemma {:induction false} LexicalAfter(a: Path, b: Path, rest: Path)
    requires Lexical(a) == Lexical(b)
    ensures Lexical(a + rest) == Lexical(b + rest)
    decreases |rest|
  {
    if rest == [] {
      assert a + rest == a && b + rest == b;
    } else {
      var init, last := rest[..|rest| - 1], rest[|rest| - 1];
      LexicalAfter(a, b, init);
      assert (a + rest)[..|a + rest| - 1] == a + init && (b + rest)[..|b + rest| - 1] == b + init;
    }
  }

  /** Spellings with `.`, with a step down and up again, or with `..` at the root, name the same place. */
  lemma SameSpelling(a: Path, n: Name, rest: Path)
    ensures Lexical(a + [CurDir] + rest) == Lexical(a + rest)
    ensures Lexical(a + [Normal(n), ParentDir] + rest) == Lexical(a + rest)
    ensures Lexical([ParentDir] + rest) == Lexical(rest)
  {
    assert (a + [CurDir])[..|a|] == a;
    LexicalAfter(a + [CurDir], a, rest);
    var down := a + [Normal(n)];
    assert down[..|a|] == a && (down + [ParentDir])[..|a| + 1] == down;
    assert a + [Normal(n), ParentDir] == down + [ParentDir];
    LexicalAfter(down + [ParentDir], a, rest);
    assert [ParentDir][..0] == [] && [] + rest == rest;
    LexicalAfter([ParentDir], [], rest);
  }

  // ------------------------------------------------------------ resolution

  function NodeAt(d: Disk, l: Location): Option<Node> {
    if l == [] then Some(Directory) else if l in d.dir then Some(d.dir[l]) else None
  }

  /** Component by component from the directory `base`, following links. */
  function Canon(d: Disk, base: Location, rest: Path, fuel: nat): (r: Result<Location>)
    ensures r.Err? ==> r.error.IoError?
    decreases fuel, |rest|
  {
    if rest == [] then Ok(base)
    else
      match rest[0]
      case CurDir => Canon(d, base, rest[1..], fuel)
      case ParentDir => Canon(d, Parent(base), rest[1..], fuel)
      case Normal(n) =>
        match NodeAt(d, base + [n])
        case None => Err(IoError(NotFound))
        case Some(Directory) => Canon(d, base + [n], rest[1..], fuel)
        case Some(File(_)) => if |rest| == 1 then Ok(base + [n]) else Err(IoError(OtherIo))
        case Some(Special) => if |rest| == 1 then Ok(base + [n]) else Err(IoError(OtherIo))
        case Some(Symlink(target)) =>
          if fuel == 0 then Err(IoError(OtherIo)) else Canon(d, [], AsPath(target) + rest[1..], fuel - 1)
  }

  function Canonicalize(d: Disk, p: Path): Result<Location> {
    Canon(d, [], p, MAX_LINK_DEPTH)
  }

  /** The node a path names, a final link not followed. */
  function LstatPath(d: Disk, p: Path): (r: Result<Node>)
    ensures r.Err? ==> r.error.IoError?
  {
    if p == [] then Ok(Directory)
    else
      match Canonicalize(d, p[..|p| - 1])
      case Err(e) => Err(e)
      case Ok(base) =>
        match NodeAt(d, base)
        case Some(Directory) =>
          (match NodeAt(d, Step1(base, p[|p| - 1]))
           case None => Err(IoError(NotFound))
           case Some(node) => Ok(node))
        case _ => Err(IoError(OtherIo))
  }

  // ------------------------------------------------------------ keys

  /** The canonical form of the closest ancestor that resolves, followed by what does not exist yet. */
  function PeeledKey(d: Disk, l: Location): (r: Result<Location>)
    ensures r.Err? ==> r.error.IoError? || r.error == UnsafePath
    decreases |l|
  {
    match Canonicalize(d, AsPath(l))
    case Ok(existing) => Ok(existing)
    case Err(e) =>
      if e != IoError(NotFound) then Err(e)
      else if l == [] then Err(UnsafePath)
      else
        match PeeledKey(d, Parent(l))
        case Err(e') => Err(e')
        case Ok(k) => Ok(k + [l[|l| - 1]])
  }

  function Key(d: Disk, p: Path): (r: Result<Location>)
    ensures r.Err? ==> r.error.IoError? || r.error == UnsafePath
  {
    PeeledKey(d, Lexical(p))
  }

  /** The program's loop: peel missing components off, then put them back in order. */
  method NormalizedPathKey(d: Disk, absolute: Path) returns (r: Result<Location>)
    ensures r == Key(d, absolute)
  {
    hide Canonicalize, PeeledKey;
    var lexical := LexicalForm(absolute);
    var ancestor := lexical;
    var missing: seq<Name> := [];
    NothingMissing(PeeledKey(d, lexical));
    while true
      invariant PeeledKey(d, lexical) == WithMissing(PeeledKey(d, ancestor), missing)
      decreases |ancestor|
    {
      PeelStep(d, ancestor, missing);
      match Canonicalize(d, AsPath(ancestor)) {
        case Ok(existing) =>
          var resolved := PutBack(existing, missing);
          return Ok(resolved);
        case Err(e) =>
          if e != IoError(NotFound) {
            return Err(e);
          }
          if ancestor == [] {
            return Err(UnsafePath);
          }
          missing := missing + [ancestor[|ancestor| - 1]];
          ancestor := Parent(ancestor);
      }
    }
  }

  method PutBack(existing: Location, missing: seq<Name>) returns (resolved: Location)
    ensures resolved == existing + Reversed(missing)
  {
    resolved := existing;
    var i := |missing|;
    assert missing[..i] == missing;
    while i > 0
      invariant 0 <= i <= |missing| && existing + Reversed(missing) == resolved + Reversed(missing[..i])
    {
      i := i - 1;
      assert missing[..i + 1][..i] == missing[..i];
      assert resolved + ([missing[i]] + Reversed(missing[..i])) == (resolved + [missing[i]]) + Reversed(missing[..i]);
      resolved := resolved + [missing[i]];
    }
    assert missing[..0] == [] && resolved + [] == resolved;
  }

  lemma NothingMissing(k: Result<Location>)
    ensures WithMissing(k, []) == k
  {
    if k.Ok? {
      assert k.value + [] == k.value;
    }
  }

  lemma PeelStep(d: Disk, l: Location, missing: seq<Name>)
    ensures match Canonicalize(d, AsPath(l))
      case Ok(existing) => WithMissing(PeeledKey(d, l), missing) == Ok(existing + Reversed(missing))
      case Err(e) =>
        if e != IoError(NotFound) then WithMissing(PeeledKey(d, l), missing) == Err(e)
        else if l == [] then WithMissing(PeeledKey(d, l), missing) == Err(UnsafePath)
        else WithMissing(PeeledKey(d, l), missing) == WithMissing(PeeledKey(d, Parent(l)), missing + [l[|l| - 1]])
  {
    hide Canonicalize;
    if l != [] {
      var last := l[|l| - 1];
      assert (missing + [last])[..|missing|] == missing;
      match PeeledKey(d, Parent(l))
      case Err(_) =>
      case Ok(k) => assert (k + [last]) + Reversed(missing) == k + ([last] + Reversed(missing));
    }
  }

  function Reversed(s: seq<Name>): (r: seq<Name>)
    ensures |r| == |s|
  {
    if s == [] then [] else [s[|s| - 1]] + Reversed(s[..|s| - 1])
  }

  function WithMissing(k: Result<Location>, missing: seq<Name>): Result<Location> {
    match k
    case Err(e) => Err(e)
    case Ok(l) => Ok(l + Reversed(missing))
  }

  lemma {:induction false} KeySplits(d: Disk, l: Location) returns (m: nat)
    requires PeeledKey(d, l).Ok?
    ensures SplitsAt(d, l, PeeledKey(d, l).value, m)
    decreases |l|
  {
    hide Canonicalize;
    assert l[..|l|] == l;
    if Canonicalize(d, AsPath(l)).Ok? {
      m := |l|;
    } else {
      m := KeySplits(d, Parent(l));
      SplitsLonger(d, l, PeeledKey(d, Parent(l)).value, m);
    }
  }

  lemma {:induction false} SplitsKey(d: Disk, l: Location, k: Location, m: nat)
    requires SplitsAt(d, l, k, m)
    ensures PeeledKey(d, l) == Ok(k)
    decreases |l|
  {
    hide Canonicalize;
    assert l[..|l|] == l;
    if m == |l| {
      assert l[m..] == [] && k == Canonicalize(d, AsPath(l)).value;
    } else {
      SplitsShorter(d, l, k, m);
      SplitsKey(d, Parent(l), k[..|k| - 1], m);
      assert k[..|k| - 1] + [l[|l| - 1]] == k;
    }
  }

  /** The key is the longest prefix that exists, in canonical form, followed by the missing components in order. */
  lemma KeyExact(d: Disk, l: Location, k: Location)
    ensures PeeledKey(d, l) == Ok(k) <==> exists m: nat :: SplitsAt(d, l, k, m)
  {
    hide SplitsAt;
    if PeeledKey(d, l) == Ok(k) {
      var m := KeySplits(d, l);
    }
    forall m: nat | SplitsAt(d, l, k, m)
      ensures PeeledKey(d, l) == Ok(k)
    {
      SplitsKey(d, l, k, m);
    }
  }

  /** `l[..m]` resolves, nothing longer does, and `k` is its resolution followed by the rest. */
  ghost predicate SplitsAt(d: Disk, l: Location, k: Location, m: nat) {
    && m <= |l| && Canonicalize(d, AsPath(l[..m])).Ok?
    && k == Canonicalize(d, AsPath(l[..m])).value + l[m..]
    && forall n :: m < n <= |l| ==> Canonicalize(d, AsPath(l[..n])) == Err(IoError(NotFound))
  }

  lemma SplitsLonger(d: Disk, l: Location, k: Location, m: nat)
    requires l != [] && SplitsAt(d, Parent(l), k, m) && Canonicalize(d, AsPath(l)) == Err(IoError(NotFound))
    ensures SplitsAt(d, l, k + [l[|l| - 1]], m)
  {
    hide Canonicalize;
    var up := Parent(l);
    assert up[..m] == l[..m] && up[m..] + [l[|l| - 1]] == l[m..];
    forall n | m < n <= |l|
      ensures Canonicalize(d, AsPath(l[..n])) == Err(IoError(NotFound))
    {
      if n < |l| {
        assert up[..n] == l[..n];
      } else {
        assert l[..n] == l;
      }
    }
  }

  lemma SplitsShorter(d: Disk, l: Location, k: Location, m: nat)
    requires l != [] && m < |l| && SplitsAt(d, l, k, m)
    ensures k != [] && k[|k| - 1] == l[|l| - 1] && SplitsAt(d, Parent(l), k[..|k| - 1], m)
  {
    hide Canonicalize;
    var up := Parent(l);
    assert up[..m] == l[..m] && up[m..] + [l[|l| - 1]] == l[m..];
    forall n | m < n <= |up|
      ensures Canonicalize(d, AsPath(up[..n])) == Err(IoError(NotFound))
    {
      assert up[..n] == l[..n];
    }
  }

  // ------------------------------------------------------------ trees

  /** Every entry lies in a directory. */
  ghost predicate Tree(d: Disk) {
    [] !in d.dir && forall l :: l in d.dir ==> NodeAt(d, Parent(l)) == Some(Directory)
  }

  lemma {:induction false} DirectoriesAbove(d: Disk, l: Location, m: nat)
    requires Tree(d) && NodeAt(d, l).Some? && m < |l|
    ensures NodeAt(d, l[..m]) == Some(Directory)
    decreases |l|
  {
    if m < |l| - 1 {
      assert l[..m] == Parent(l)[..m];
      DirectoriesAbove(d, Parent(l), m);
    }
  }

  lemma CanonEmpty(d: Disk, base: Location, fuel: nat)
    ensures Canon(d, base, [], fuel) == Ok(base)
  {
  }

  /** One component more, when nothing has to be followed there. */
  lemma {:induction false} CanonSnoc(d: Disk, base: Location, rest: Path, c: Component, fuel: nat, b: Location)
    requires Canon(d, base, rest, fuel) == Ok(b) && NodeAt(d, b) == Some(Directory)
    requires NodeAt(d, Step1(b, c)).Some? && !NodeAt(d, Step1(b, c)).value.Symlink?
    ensures Canon(d, base, rest + [c], fuel) == Ok(Step1(b, c))
    decreases fuel, |rest|
  {
    if rest == [] {
      assert rest + [c] == [c];
    } else {
      var tail := rest[1..];
      assert (rest + [c])[0] == rest[0] && (rest + [c])[1..] == tail + [c];
      match rest[0]
      case CurDir => CanonSnoc(d, base, tail, c, fuel, b);
      case ParentDir => CanonSnoc(d, Parent(base), tail, c, fuel, b);
      case Normal(n) =>
        match NodeAt(d, base + [n]).value
        case Directory => CanonSnoc(d, base + [n], tail, c, fuel, b);
        case File(_) =>
        case Special =>
        case Symlink(target) =>
          assert AsPath(target) + (tail + [c]) == (AsPath(target) + tail) + [c];
          CanonSnoc(d, [], AsPath(target) + tail, c, fuel - 1, b);
    }
  }

  /** What a path names, unless it is a link, is what it resolves to. */
  lemma LstatResolves(d: Disk, p: Path)
    requires LstatPath(d, p).Ok? && !LstatPath(d, p).value.Symlink?
    ensures Canonicalize(d, p).Ok? && NodeAt(d, Canonicalize(d, p).value) == Some(LstatPath(d, p).value)
  {
    if p != [] {
      var init, c := p[..|p| - 1], p[|p| - 1];
      assert init + [c] == p;
      CanonSnoc(d, [], init, c, MAX_LINK_DEPTH, Canonicalize(d, init).value);
    }
  }

  lemma TreeAbove(d: Disk, l: Location)
    requires Tree(d) && NodeAt(d, l).Some?
    ensures NodeAt(d, Parent(l)) == Some(Directory)
  {
  }

  /** What resolves lies in a directory that resolves. */
  lemma {:induction false} CanonLast(d: Disk, base: Location, rest: Path, c: Component, fuel: nat)
    requires Tree(d) && NodeAt(d, base) == Some(Directory) && Canon(d, base, rest + [c], fuel).Ok?
    ensures Canon(d, base, rest, fuel).Ok?
    ensures
      var b := Canon(d, base, rest, fuel).value;
      NodeAt(d, b) == Some(Directory) && NodeAt(d, Step1(b, c)).Some?
    decreases fuel, |rest|
  {
    hide Tree;
    TreeAbove(d, base);
    if rest == [] {
      assert rest + [c] == [c];
    } else {
      var tail := rest[1..];
      assert (rest + [c])[0] == rest[0] && (rest + [c])[1..] == tail + [c];
      match rest[0]
      case CurDir => CanonLast(d, base, tail, c, fuel);
      case ParentDir => CanonLast(d, Parent(base), tail, c, fuel);
      case Normal(n) =>
        match NodeAt(d, base + [n]).value
        case Directory => CanonLast(d, base + [n], tail, c, fuel);
        case File(_) =>
        case Special =>
        case Symlink(target) =>
          assert AsPath(target) + (tail + [c]) == (AsPath(target) + tail) + [c];
          CanonLast(d, [], AsPath(target) + tail, c, fuel - 1);
    }
  }

  /** So a path that resolves names something. */
  lemma ResolvedIsThere(d: Disk, p: Path)
    requires Tree(d) && Canonicalize(d, p).Ok?
    ensures LstatPath(d, p).Ok?
  {
    if p != [] {
      assert p[..|p| - 1] + [p[|p| - 1]] == p;
      CanonLast(d, [], p[..|p| - 1], p[|p| - 1], MAX_LINK_DEPTH);
    }
  }

  // ------------------------------------------------------------ paths without links

  predicate LinkAt(d: Disk, l: Location) {
    l in d.dir && d.dir[l].Symlink?
  }

  /** Neither the place nor anything above it is a link. */
  ghost predicate Unlinked(d: Disk, l: Location) {
    forall m :: 0 <= m <= |l| ==> !LinkAt(d, l[..m])
  }

  /** Following the path from a directory one passes no link. */
  ghost predicate NoLinkFrom(d: Disk, base: Location, rest: Path) {
    forall n :: 0 <= n <= |rest| ==> !LinkAt(d, Lexical(AsPath(base) + rest[..n]))
  }

  ghost predicate NoLinkOn(d: Disk, p: Path) {
    NoLinkFrom(d, [], p)
  }

  /** Every place above the one reached is passed on the way. */
  lemma {:induction false} PassedOnTheWay(p: Path, m: nat) returns (n: nat)
    requires m <= |Lexical(p)|
    ensures n <= |p| && Lexical(p[..n]) == Lexical(p)[..m]
  {
    if m == |Lexical(p)| {
      n := |p|;
      assert p[..n] == p && Lexical(p)[..m] == Lexical(p);
    } else {
      var up := p[..|p| - 1];
      n := PassedOnTheWay(up, m);
      assert up[..n] == p[..n];
    }
  }

  lemma NoLinkAbove(d: Disk, p: Path)
    requires NoLinkOn(d, p)
    ensures Unlinked(d, Lexical(p))
  {
    hide Lexical;
    forall m | 0 <= m <= |Lexical(p)|
      ensures !LinkAt(d, Lexical(p)[..m])
    {
      var n := PassedOnTheWay(p, m);
      assert AsPath([]) + p[..n] == p[..n];
    }
  }

  /** Then a path leads to the place it spells. */
  lemma {:induction false} CanonIsLexical(d: Disk, base: Location, rest: Path, fuel: nat)
    requires NoLinkFrom(d, base, rest) && Canon(d, base, rest, fuel).Ok?
    ensures Canon(d, base, rest, fuel).value == Lexical(AsPath(base) + rest)
    decreases |rest|
  {
    hide Canon, NoLinkFrom;
    if rest == [] {
      assert AsPath(base) + rest == AsPath(base);
      LexicalOfNormal(base);
      CanonEmpty(d, base, fuel);
    } else {
      WalkStep(d, base, rest);
      CanonOneStep(d, base, rest, fuel);
      CanonIsLexical(d, Step1(base, rest[0]), rest[1..], fuel);
    }
  }

  lemma WalkStep(d: Disk, base: Location, rest: Path)
    requires rest != [] && NoLinkFrom(d, base, rest)
    ensures NoLinkFrom(d, Step1(base, rest[0]), rest[1..]) && !LinkAt(d, Step1(base, rest[0]))
    ensures Lexical(AsPath(Step1(base, rest[0])) + rest[1..]) == Lexical(AsPath(base) + rest)
  {
    hide Lexical;
    var next, tail := Step1(base, rest[0]), rest[1..];
    forall n | 0 <= n <= |tail|
      ensures Lexical(AsPath(next) + tail[..n]) == Lexical(AsPath(base) + rest[..n + 1])
    {
      OneStepOn(base, rest[0], tail[..n]);
      assert [rest[0]] + tail[..n] == rest[..n + 1];
    }
    assert tail[..|tail|] == tail && rest[..|rest|] == rest;
    assert AsPath(next) + tail[..0] == AsPath(next);
    LexicalOfNormal(next);
  }

  lemma OneStepOn(base: Location, c: Component, tail: Path)
    ensures Lexical(AsPath(Step1(base, c)) + tail) == Lexical(AsPath(base) + ([c] + tail))
  {
    var here := AsPath(base) + [c];
    assert here[..|base|] == AsPath(base) && AsPath(base) + ([c] + tail) == here + tail;
    LexicalOfNormal(base);
    LexicalOfNormal(Step1(base, c));
    LexicalAfter(here, AsPath(Step1(base, c)), tail);
  }

  lemma CanonOneStep(d: Disk, base: Location, rest: Path, fuel: nat)
    requires rest != [] && !LinkAt(d, Step1(base, rest[0])) && Canon(d, base, rest, fuel).Ok?
    ensures Canon(d, base, rest, fuel) == Canon(d, Step1(base, rest[0]), rest[1..], fuel)
  {
  }

  ghost predicate IsFile(d: Disk, p: Path) {
    Lexical(p) in d.dir && d.dir[Lexical(p)].File?
  }

  /** What such a path names is what is at the place it spells. */
  lemma LstatIsNode(d: Disk, p: Path)
    requires NoLinkOn(d, p) && LstatPath(d, p).Ok?
    ensures NodeAt(d, Lexical(p)) == Some(LstatPath(d, p).value)
  {
    if p != [] {
      InitIsLexical(d, p);
    }
  }

  lemma InitIsLexical(d: Disk, p: Path)
    requires NoLinkOn(d, p) && p != [] && Canonicalize(d, p[..|p| - 1]).Ok?
    ensures Canonicalize(d, p[..|p| - 1]).value == Lexical(p[..|p| - 1])
  {
    hide Canon;
    var init := p[..|p| - 1];
    forall n | 0 <= n <= |init|
      ensures init[..n] == p[..n]
    {
    }
    CanonIsLexical(d, [], init, MAX_LINK_DEPTH);
    assert AsPath([]) + init == init;
  }

  /** Some proper prefix of the location is there and is no directory. */
  ghost predicate InTheWay(d: Disk, l: Location) {
    exists m :: 0 < m < |l| && NodeAt(d, l[..m]).Some? && NodeAt(d, l[..m]) != Some(Directory)
  }

  lemma CanonStep(d: Disk, base: Location, names: Location, fuel: nat)
    requires names != [] && !LinkAt(d, base + [names[0]])
    ensures Canon(d, base, AsPath(names), fuel) ==
      match NodeAt(d, base + [names[0]])
      case None => Err(IoError(NotFound))
      case Some(Directory) => Canon(d, base + [names[0]], AsPath(names[1..]), fuel)
      case Some(_) => if |names| == 1 then Ok(base + [names[0]]) else Err(IoError(OtherIo))
  {
    assert AsPath(names)[1..] == AsPath(names[1..]);
  }

  /** What resolution answers where there is no link. */
  lemma {:induction false} CanonPlain(d: Disk, base: Location, names: Location, fuel: nat)
    requires Tree(d) && Unlinked(d, base + names) && NodeAt(d, base) == Some(Directory)
    ensures Canon(d, base, AsPath(names), fuel) ==
      if NodeAt(d, base + names).Some? then Ok(base + names)
      else if InTheWay(d, base + names) then Err(IoError(OtherIo))
      else Err(IoError(NotFound))
    decreases |names|
  {
    hide Canon, Tree, InTheWay, NodeAt;
    var whole := base + names;
    if names == [] {
      assert whole == base && AsPath(names) == [];
      CanonEmpty(d, base, fuel);
    } else {
      var next, rest := base + [names[0]], names[1..];
      assert next + rest == whole && whole[..|next|] == next && whole[..|base|] == base;
      CanonStep(d, base, names, fuel);
      if NodeAt(d, next) == Some(Directory) {
        CanonPlain(d, next, rest, fuel);
      } else {
        WhereItStops(d, whole, |next|);
        assert |names| == 1 ==> whole == next;
      }
    }
  }

  lemma WhereItStops(d: Disk, l: Location, n: nat)
    requires Tree(d) && 0 < n <= |l| && NodeAt(d, l[..n]) != Some(Directory) && NodeAt(d, l[..n - 1]) == Some(Directory)
    ensures n < |l| || NodeAt(d, l[..n]).None? ==> NodeAt(d, l).None?
    ensures NodeAt(d, l[..n]).None? ==> !InTheWay(d, l)
    ensures NodeAt(d, l[..n]).Some? && n < |l| ==> InTheWay(d, l)
  {
    hide Tree, NodeAt;
    AboveStop(d, l, n);
    if NodeAt(d, l[..n]).None? {
      NothingInTheWay(d, l, n);
    }
  }

  /** A missing component below directories means that nothing is in the way. */
  lemma NothingInTheWay(d: Disk, l: Location, n: nat)
    requires Tree(d) && 0 < n <= |l| && NodeAt(d, l[..n]).None? && NodeAt(d, l[..n - 1]) == Some(Directory)
    ensures !InTheWay(d, l)
  {
    AboveStop(d, l, n);
    forall m | 0 < m < |l|
      ensures NodeAt(d, l[..m]).None? || NodeAt(d, l[..m]) == Some(Directory)
    {
      if m < n - 1 {
        assert l[..n - 1][..m] == l[..m];
        DirectoriesAbove(d, l[..n - 1], m);
      }
    }
  }

  /** Below something that is no directory there is nothing. */
  lemma AboveStop(d: Disk, l: Location, n: nat)
    requires Tree(d) && 0 < n <= |l| && NodeAt(d, l[..n]) != Some(Directory)
    ensures n < |l| ==> NodeAt(d, l).None?
    ensures NodeAt(d, l[..n]).None? ==> NodeAt(d, l).None? && forall m :: n <= m < |l| ==> NodeAt(d, l[..m]).None?
  {
    if NodeAt(d, l).Some? && n < |l| {
      DirectoriesAbove(d, l, n);
    }
    assert l[..|l|] == l;
    forall m | n < m < |l|
      ensures NodeAt(d, l[..m]).None?
    {
      if NodeAt(d, l[..m]).Some? {
        assert l[..m][..n] == l[..n];
        DirectoriesAbove(d, l[..m], n);
      }
    }
  }

  /** Where there is no link a place has a key exactly if nothing but directories is on the way to it, and then it is
      its own key. */
  lemma {:induction false} KeyIsPlace(d: Disk, l: Location)
    requires Tree(d) && Unlinked(d, l)
    ensures PeeledKey(d, l) == if NodeAt(d, l).Some? || !InTheWay(d, l) then Ok(l) else Err(IoError(OtherIo))
    decreases |l|
  {
    hide Canon, Tree, Unlinked, InTheWay;
    assert [] + l == l;
    CanonPlain(d, [], l, MAX_LINK_DEPTH);
    if NodeAt(d, l).None? && !InTheWay(d, l) {
      ClearAbove(d, l);
      KeyIsPlace(d, Parent(l));
      assert Parent(l) + [l[|l| - 1]] == l;
    }
  }

  lemma ClearAbove(d: Disk, l: Location)
    ensures Unlinked(d, l) ==> Unlinked(d, Parent(l))
    ensures !InTheWay(d, l) ==> !InTheWay(d, Parent(l))
  {
    hide NodeAt, LinkAt;
    var up := Parent(l);
    forall m | 0 <= m <= |up|
      ensures up[..m] == l[..m]
    {
    }
  }

  /** So a key is its own key, and two paths without links share a key exactly if they spell one place. */
  lemma KeyIdempotent(d: Disk, p: Path, q: Path)
    requires Tree(d) && NoLinkOn(d, p) && NoLinkOn(d, q) && Key(d, p).Ok?
    ensures Key(d, p) == Ok(Lexical(p))
    ensures Key(d, AsPath(Key(d, p).value)) == Key(d, p)
    ensures Key(d, q) == Key(d, p) <==> Lexical(q) == Lexical(p)
  {
    hide PeeledKey, Lexical, NoLinkOn, Unlinked;
    NoLinkAbove(d, p);
    NoLinkAbove(d, q);
    KeyIsPlace(d, Lexical(p));
    KeyIsPlace(d, Lexical(q));
    LexicalOfNormal(Lexical(p));
  }

  // ------------------------------------------------------------ keys as text

  function KeyText(l: Location): seq<byte> {
    if l == [] then [] else [SLASH] + l[0] + KeyText(l[1..])
  }

  /** The program compares keys as text; different places have different texts. */
  lemma {:induction false} KeyTextInjective(l: Location, k: Location)
    requires (forall i :: 0 <= i < |l| ==> SLASH !in l[i]) && (forall i :: 0 <= i < |k| ==> SLASH !in k[i])
    requires KeyText(l) == KeyText(k)
    ensures l == k
  {
    if l != [] && k != [] {
      var a, b := KeyText(l)[1..], KeyText(k)[1..];
      assert a == l[0] + KeyText(l[1..]) && b == k[0] + KeyText(k[1..]);
      if |l[0]| < |k[0]| {
        assert a[|l[0]|] == b[|l[0]|];
        assert b[|l[0]|] in k[0];
        TextStarts(l[1..]);
      } else if |k[0]| < |l[0]| {
        assert a[|k[0]|] in l[0];
        TextStarts(k[1..]);
      }
      assert l[0] == a[..|l[0]|] && k[0] == b[..|k[0]|];
      KeyTextInjective(l[1..], k[1..]);
      assert l == [l[0]] + l[1..] && k == [k[0]] + k[1..];
    }
  }

  lemma TextStarts(l: Location)
    ensures l != [] ==> KeyText(l) != [] && KeyText(l)[0] == SLASH
  {
  }
}
