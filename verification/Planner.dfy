/**
 Planning an encryption batch: every input and output is settled before anything is
 modified.  The file system is taken as it stands, a value `d`; when it is `flaky`,
 any lookup may fail without cause.
 */
module Planner {
  import opened Bytes
  import opened Results
  import opened FileSystem
  import opened Quarantine
  import opened Goals
  import opened Names
  import opened PathKeys
  import opened Order
  import opened Traversal

  datatype EncryptionPlan = EncryptionPlan(source: Path, output: Path)

  const DASH: byte := 0x2D

  // ------------------------------------------------------------ collecting

  function FileName(p: Path): Option<Name> {
    if p != [] && p[|p| - 1].Normal? then Some(p[|p| - 1].name) else None
  }

  predicate HasOurExtension(l: Location) {
    Extension(Leaf(l)) == Some(IRONLOCK_EXTENSION)
  }

  /** The files of a directory that an encryption, or a decryption, takes up. */
  function Selected(listing: seq<Location>, decrypting: bool): seq<Path> {
    if listing == [] then []
    else
      (if HasOurExtension(listing[0]) == decrypting then [AsPath(listing[0])] else [])
      + Selected(listing[1..], decrypting)
  }

  /** What one input stands for. */
  ghost predicate StandsFor(d: Disk, input: Path, decrypting: bool, part: seq<Path>) {
    match LstatPath(d, input)
    case Ok(File(_)) => part == [input]
    case Ok(Directory) =>
      && Canonicalize(d, input).Ok?
      && exists listing :: Listing(d, Canonicalize(d, input).value, listing) && part == Selected(listing, decrypting)
    case _ => false
  }

  function Flatten(parts: seq<seq<Path>>): seq<Path> {
    if parts == [] then [] else Flatten(parts[..|parts| - 1]) + parts[|parts| - 1]
  }

  function Rank(c: Component): nat {
    match c
    case CurDir => 0
    case ParentDir => 1
    case Normal(_) => 2
  }

  predicate NameLe(a: Name, b: Name) {
    LexLe((x: byte, y: byte) => x <= y, a, b)
  }

  /** Component by component; `.` before `..` before names, and names by their bytes. */
  predicate ComponentLe(a: Component, b: Component) {
    if a.Normal? && b.Normal? then NameLe(a.name, b.name) else Rank(a) <= Rank(b)
  }

  function SpelledOrder(): (Path, Path) -> bool {
    Lex(ComponentLe)
  }

  lemma NameOrderTotal()
    ensures TotalOrder(NameLe)
  {
    var bytes := (x: byte, y: byte) => x <= y;
    assert TotalOrder(bytes);
    LexOrder(bytes);
    forall a, b
      ensures NameLe(a, b) == Lex(bytes)(a, b)
    {
    }
  }

  lemma ComponentOrderTotal()
    ensures TotalOrder(ComponentLe)
  {
    NameOrderTotal();
    hide NameLe;
    forall a, b
      ensures ComponentLe(a, b) || ComponentLe(b, a)
      ensures ComponentLe(a, b) && ComponentLe(b, a) ==> a == b
    {
      if a.Normal? && b.Normal? {
        assert NameLe(a.name, b.name) || NameLe(b.name, a.name);
      }
    }
    forall a, b, c | ComponentLe(a, b) && ComponentLe(b, c)
      ensures ComponentLe(a, c)
    {
      if a.Normal? && b.Normal? && c.Normal? {
        assert NameLe(a.name, b.name) && NameLe(b.name, c.name);
      }
    }
  }

  lemma SpelledOrderTotal()
    ensures TotalOrder(SpelledOrder())
  {
    ComponentOrderTotal();
    LexOrder(ComponentLe);
  }

  /** A regular file, or a directory without links in it. */
  ghost predicate Collectable(d: Disk, input: Path) {
    match LstatPath(d, input)
    case Ok(File(_)) => true
    case Ok(Directory) => Canonicalize(d, input).Ok? && !RefusedBelow(d, Canonicalize(d, input).value)
    case _ => false
  }

  /** The files one input contributes. */
  method CollectOne(d: Disk, input: Path, decrypting: bool, flaky: bool) returns (r: Result<seq<Path>>)
    requires Tree(d)
    ensures r.Ok? ==> StandsFor(d, input, decrypting, r.value)
    ensures r.Err? ==> !r.error.OutputCollision?
    ensures !flaky ==> (r.Ok? <==> Collectable(d, input))
    ensures !flaky && LstatPath(d, input) == Err(IoError(NotFound)) ==> r == Err(FileNotFound)
  {
    hide Canonicalize, LstatPath, Tree, Listing;
    var works := Works(flaky);
    if !works {
      return Err(IoError(OtherIo));
    }
    var seen := LstatPath(d, input);
    match seen
    case Err(e) => r := Err(if e == IoError(NotFound) then FileNotFound else e);
    case Ok(Symlink(_)) => r := Err(UnsafePath);
    case Ok(Special) => r := Err(UnsafePath);
    case Ok(File(_)) => r := Ok([input]);
    case Ok(Directory) =>
      var listing := CollectFilesRecursive(d, input, flaky);
      r := if listing.Err? then Err(listing.error) else Ok(Selected(listing.value, decrypting));
  }

  /** Input by input, then sorted. */
  ghost predicate Collected(d: Disk, inputs: seq<Path>, decrypting: bool, parts: seq<seq<Path>>, files: seq<Path>) {
    && |parts| == |inputs| && (forall i :: 0 <= i < |inputs| ==> StandsFor(d, inputs[i], decrypting, parts[i]))
    && Sorted(SpelledOrder(), files) && multiset(files) == multiset(Flatten(parts))
  }

  /** The inputs fix the collected files: no choice made on the way matters. */
  lemma CollectedUnique(d: Disk, inputs: seq<Path>, decrypting: bool, parts: seq<seq<Path>>, files: seq<Path>,
                        parts': seq<seq<Path>>, files': seq<Path>)
    requires Collected(d, inputs, decrypting, parts, files) && Collected(d, inputs, decrypting, parts', files')
    ensures files == files'
  {
    hide SpelledOrder, Listing, Canonicalize, LstatPath;
    forall i | 0 <= i < |inputs|
      ensures parts[i] == parts'[i]
    {
      assert StandsFor(d, inputs[i], decrypting, parts[i]) && StandsFor(d, inputs[i], decrypting, parts'[i]);
      if LstatPath(d, inputs[i]) == Ok(Directory) {
        var root := Canonicalize(d, inputs[i]).value;
        var a :| Listing(d, root, a) && parts[i] == Selected(a, decrypting);
        var b :| Listing(d, root, b) && parts'[i] == Selected(b, decrypting);
        ListingUnique(d, root, a, b);
      }
    }
    assert parts == parts';
    SpelledOrderTotal();
    SortedUnique(SpelledOrder(), files, files');
  }

  method CollectInputs(d: Disk, inputs: seq<Path>, decrypting: bool, flaky: bool)
    returns (r: Result<seq<Path>>, ghost parts: seq<seq<Path>>)
    requires Tree(d)
    ensures r.Ok? ==> Collected(d, inputs, decrypting, parts, r.value)
    ensures r.Err? ==> !r.error.OutputCollision?
    ensures !flaky ==> (r.Ok? <==> forall i :: 0 <= i < |inputs| ==> Collectable(d, inputs[i]))
  {
    hide StandsFor, SpelledOrder, Tree, Collectable;
    var files: seq<Path> := [];
    parts := [];
    for i := 0 to |inputs|
      invariant |parts| == i && files == Flatten(parts)
      invariant forall j :: 0 <= j < i ==> StandsFor(d, inputs[j], decrypting, parts[j])
      invariant !flaky ==> forall j :: 0 <= j < i ==> Collectable(d, inputs[j])
    {
      var part := CollectOne(d, inputs[i], decrypting, flaky);
      if part.Err? {
        return Err(part.error), parts;
      }
      assert (parts + [part.value])[..i] == parts;
      files, parts := files + part.value, parts + [part.value];
    }
    SpelledOrderTotal();
    SortSorts(SpelledOrder(), files);
    r := Ok(Sort(SpelledOrder(), files));
  }

  // ------------------------------------------------------------ identities

  datatype Handle = OnFile(inode: nat) | OnOther(at: Location)

  /** What a path leads to, links followed. */
  function Identity(d: Disk, p: Path): (r: Result<Handle>)
    ensures r.Err? ==> r.error.IoError?
  {
    match Canonicalize(d, p)
    case Err(e) => Err(e)
    case Ok(l) =>
      match NodeAt(d, l)
      case Some(File(i)) => Ok(OnFile(i))
      case Some(Directory) => Ok(OnOther(l))
      case Some(Special) => Ok(OnOther(l))
      case _ => Err(IoError(NotFound))
  }

  /** Two paths share a key, or lead to one file. */
  ghost predicate OneFile(d: Disk, p: Path, q: Path) {
    (Key(d, p).Ok? && Key(d, p) == Key(d, q)) || (Identity(d, p).Ok? && Identity(d, p) == Identity(d, q))
  }

  /** The file system does not tell whether the output is the source: there is no key or identity to compare, or the
      output is a link. */
  ghost predicate Unanswerable(d: Disk, source: Path, output: Path) {
    || Key(d, source).Err? || Key(d, output).Err?
    || (&& Key(d, source) != Key(d, output) && LstatPath(d, output) != Err(IoError(NotFound))
        && (LstatPath(d, output).Err? || LstatPath(d, output).value.Symlink?
            || Identity(d, source).Err? || Identity(d, output).Err?))
  }

  /** Compares keys, and identities if there is an output. */
  method PathsReferToSameFile(d: Disk, source: Path, output: Path, flaky: bool) returns (r: Result<bool>)
    requires Tree(d)
    ensures r.Ok? ==> (r.value <==> OneFile(d, source, output))
    ensures Unanswerable(d, source, output) ==> r.Err?
    ensures r.Err? && !flaky ==> Unanswerable(d, source, output)
    ensures r.Err? ==> r.error.IoError? || r.error == UnsafePath
  {
    hide Canonicalize, PeeledKey, LstatPath, Identity, Tree;
    var works := Works(flaky);
    if !works {
      return Err(IoError(OtherIo));
    }
    var first := NormalizedPathKey(d, source);
    if first.Err? {
      return Err(first.error);
    }
    var second := NormalizedPathKey(d, output);
    if second.Err? {
      return Err(second.error);
    }
    if first.value == second.value {
      return Ok(true);
    }
    var seen := LstatPath(d, output);
    if seen.Err? {
      NothingThere(d, output);
      return if seen.error == IoError(NotFound) then Ok(false) else Err(seen.error);
    }
    if seen.value.Symlink? {
      return Err(UnsafePath);
    }
    var a := Identity(d, source);
    if a.Err? {
      return Err(a.error);
    }
    var b := Identity(d, output);
    if b.Err? {
      return Err(b.error);
    }
    r := Ok(a.value == b.value);
  }

  lemma NothingThere(d: Disk, p: Path)
    requires Tree(d) && LstatPath(d, p).Err?
    ensures Identity(d, p).Err?
  {
    hide Canonicalize, LstatPath, Tree;
    if Canonicalize(d, p).Ok? {
      ResolvedIsThere(d, p);
    }
  }

  /** The directory that is to hold the path's last component is there. */
  ghost predicate HasDirectory(d: Disk, p: Path) {
    && p != [] && Canonicalize(d, p[..|p| - 1]).Ok?
    && NodeAt(d, Canonicalize(d, p[..|p| - 1]).value) == Some(Directory)
  }

  /** For a source that is a file and an output that is absent or a file, neither reached through links, the question
      is answered, and the answer is whether they are one place or two names of one inode. */
  lemma OneFileExactly(d: Disk, source: Path, output: Path)
    requires Tree(d) && NoLinkOn(d, source) && NoLinkOn(d, output) && HasDirectory(d, output)
    requires LstatPath(d, source).Ok? && LstatPath(d, source).value.File?
    requires NodeAt(d, Lexical(output)).None? || NodeAt(d, Lexical(output)).value.File?
    ensures !Unanswerable(d, source, output) && IsFile(d, source)
    ensures OneFile(d, source, output) <==>
      || Lexical(source) == Lexical(output)
      || (IsFile(d, output) && d.dir[Lexical(output)].inode == d.dir[Lexical(source)].inode)
  {
    hide Canonicalize, Key, NoLinkOn, Lexical, Tree;
    FileOrFree(d, output);
    LstatIsNode(d, source);
    LstatResolves(d, source);
    NoLinkAbove(d, source);
    HasOwnKey(d, source);
    HasOwnKey(d, output);
    if LstatPath(d, output).Err? {
      NothingThere(d, output);
    } else {
      LstatResolves(d, output);
    }
  }

  /** What is asked about such an output, and what comes back. */
  lemma FileOrFree(d: Disk, p: Path)
    requires Tree(d) && NoLinkOn(d, p) && HasDirectory(d, p)
    requires NodeAt(d, Lexical(p)).None? || NodeAt(d, Lexical(p)).value.File?
    ensures !InTheWay(d, Lexical(p)) && Lexical(p) != []
    ensures LstatPath(d, p) == if Lexical(p) in d.dir then Ok(d.dir[Lexical(p)]) else Err(IoError(NotFound))
  {
    hide Canonicalize, NoLinkOn;
    var up, l := Lexical(p[..|p| - 1]), Lexical(p);
    InitIsLexical(d, p);
    TreeAbove(d, up);
    assert p[|p| - 1].Normal? && l[..|up|] == up;
    forall m | 0 < m < |l|
      ensures NodeAt(d, l[..m]) == Some(Directory)
    {
      if m < |up| {
        assert l[..m] == up[..m];
        DirectoriesAbove(d, up, m);
      }
    }
  }

  lemma HasOwnKey(d: Disk, p: Path)
    requires Tree(d) && NoLinkOn(d, p) && (NodeAt(d, Lexical(p)).Some? || !InTheWay(d, Lexical(p)))
    ensures Key(d, p) == Ok(Lexical(p))
  {
    hide PeeledKey, Lexical;
    NoLinkAbove(d, p);
    KeyIsPlace(d, Lexical(p));
  }

  // ------------------------------------------------------------ names

  function Sibling(p: Path, n: Name): Path
    requires p != []
  {
    p[..|p| - 1] + [Normal(n)]
  }

  function DefaultEncryptedPath(utf8: Name -> bool, source: Path): (r: Result<Path>)
    ensures r.Err? ==> r.error == IoError(OtherIo)
  {
    match FileName(source)
    case None => Err(IoError(OtherIo))
    case Some(n) => if utf8(Stem(n)) then Ok(Sibling(source, EncryptedName(n))) else Err(IoError(OtherIo))
  }

  function EncryptedVariant(n: Name, suffix: nat): Name {
    Dotted(Stem(n) + [DASH] + Hex(suffix, 16), IRONLOCK_EXTENSION)
  }

  /** A random alternative to the default. */
  ghost predicate IsVariant(source: Path, output: Path) {
    FileName(source).Some? && exists n :: output == Sibling(source, EncryptedVariant(FileName(source).value, n))
  }

  /** Key lookup works for every variant. */
  ghost predicate VariantsHaveKeys(d: Disk, source: Path) {
    forall p :: IsVariant(source, p) ==> Key(d, p).Ok?
  }

  lemma VariantDiffers(utf8: Name -> bool, source: Path, output: Path)
    requires IsVariant(source, output) && DefaultEncryptedPath(utf8, source).Ok?
    ensures output != DefaultEncryptedPath(utf8, source).value
  {
    var n := FileName(source).value;
    var k :| output == Sibling(source, EncryptedVariant(n, k));
    assert output[|output| - 1] == Normal(EncryptedVariant(n, k));
    assert DefaultEncryptedPath(utf8, source).value[|output| - 1] == Normal(EncryptedName(n));
    assert |EncryptedVariant(n, k)| == |EncryptedName(n)| + 17;
  }

  /** A random sibling whose key is free and which does not exist. */
  method UniqueEncryptedPath(d: Disk, utf8: Name -> bool, source: Path, unavailable: set<Location>, flaky: bool)
    returns (r: Result<Path>)
    ensures r.Ok? ==>
      && IsVariant(source, r.value) && Key(d, r.value).Ok? && Key(d, r.value).value !in unavailable
      && (!flaky ==> Canonicalize(d, r.value).Err?)
    ensures r.Err? && r.error.OutputCollision? ==> r.error == OutputCollision(NoUniqueName)
    ensures r.Err? && !flaky && DefaultEncryptedPath(utf8, source).Ok? && VariantsHaveKeys(d, source) ==>
      r.error == OutputCollision(NoUniqueName)
  {
    hide Canonicalize, PeeledKey, EncryptedVariant;
    if FileName(source).None? || !utf8(Stem(FileName(source).value)) {
      return Err(UnsafePath);
    }
    for attempt := 0 to ATTEMPTS {
      var suffix := NextU64();
      var candidate := Sibling(source, EncryptedVariant(FileName(source).value, suffix));
      var key := NormalizedPathKey(d, candidate);
      if key.Err? {
        return Err(key.error);
      }
      var works := Works(flaky);
      var there := works && Canonicalize(d, candidate).Ok?;
      if key.value !in unavailable && !there {
        return Ok(candidate);
      }
    }
    r := Err(OutputCollision(NoUniqueName));
  }

  // ------------------------------------------------------------ planning

  ghost predicate HasKey(d: Disk, p: Path, k: Location) {
    Key(d, p) == Ok(k)
  }

  /** Every source has a key and an identity of its own. */
  ghost predicate SourcesDistinct(d: Disk, sources: seq<Path>) {
    && (forall i :: 0 <= i < |sources| ==> Key(d, sources[i]).Ok? && Identity(d, sources[i]).Ok?)
    && (forall i, j :: 0 <= i < j < |sources| ==>
          Key(d, sources[i]) != Key(d, sources[j]) && Identity(d, sources[i]) != Identity(d, sources[j]))
  }

  ghost predicate KeysOf(d: Disk, paths: seq<Path>, keys: set<Location>) {
    forall k :: k in keys <==> exists i :: 0 <= i < |paths| && HasKey(d, paths[i], k)
  }

  /** Refuses a batch in which two inputs are one file. */
  method CheckSources(d: Disk, sources: seq<Path>, flaky: bool) returns (r: Result<set<Location>>)
    ensures r.Ok? ==> SourcesDistinct(d, sources) && KeysOf(d, sources, r.value)
    ensures r.Err? && r.error.OutputCollision? ==>
      && r.error == OutputCollision(SpecifiedTwice)
      && exists i, j :: 0 <= i < j < |sources| && OneFile(d, sources[i], sources[j])
    ensures r.Err? && !flaky ==> !SourcesDistinct(d, sources)
  {
    hide PeeledKey, Canonicalize, Identity, Key;
    var keys: set<Location>, handles: set<Handle> := {}, {};
    for i := 0 to |sources|
      invariant SourcesDistinct(d, sources[..i]) && KeysOf(d, sources[..i], keys)
      invariant forall h :: h in handles <==> exists j :: 0 <= j < i && Identity(d, sources[j]) == Ok(h)
    {
      var works := Works(flaky);
      if !works {
        return Err(IoError(OtherIo));
      }
      var key := NormalizedPathKey(d, sources[i]);
      if key.Err? {
        return Err(key.error);
      }
      var handle := Identity(d, sources[i]);
      if handle.Err? {
        return Err(handle.error);
      }
      if key.value in keys || handle.value in handles {
        TwiceAmong(d, sources, i, keys, handles, key.value, handle.value);
        return Err(OutputCollision(SpecifiedTwice));
      }
      SourcesGrow(d, sources, i, keys, handles, key.value, handle.value);
      keys, handles := keys + {key.value}, handles + {handle.value};
    }
    assert sources[..|sources|] == sources;
    r := Ok(keys);
  }

  lemma TwiceAmong(d: Disk, sources: seq<Path>, i: nat, keys: set<Location>, handles: set<Handle>, k: Location,
                   h: Handle)
    requires i < |sources| && KeysOf(d, sources[..i], keys) && HasKey(d, sources[i], k)
    requires Identity(d, sources[i]) == Ok(h)
    requires forall h :: h in handles <==> exists j :: 0 <= j < i && Identity(d, sources[j]) == Ok(h)
    requires k in keys || h in handles
    ensures exists a, b :: 0 <= a < b < |sources| && OneFile(d, sources[a], sources[b])
  {
    hide Key, Identity;
    if k in keys {
      var j :| 0 <= j < |sources[..i]| && HasKey(d, sources[..i][j], k);
      assert 0 <= j < i && OneFile(d, sources[j], sources[i]);
    } else {
      var j :| 0 <= j < i && Identity(d, sources[j]) == Ok(h);
      assert OneFile(d, sources[j], sources[i]);
    }
  }

  lemma SourcesGrow(d: Disk, sources: seq<Path>, i: nat, keys: set<Location>, handles: set<Handle>, k: Location,
                    h: Handle)
    requires i < |sources| && SourcesDistinct(d, sources[..i]) && KeysOf(d, sources[..i], keys)
    requires HasKey(d, sources[i], k) && Identity(d, sources[i]) == Ok(h) && k !in keys && h !in handles
    requires forall h :: h in handles <==> exists j :: 0 <= j < i && Identity(d, sources[j]) == Ok(h)
    ensures SourcesDistinct(d, sources[..i + 1]) && KeysOf(d, sources[..i + 1], keys + {k})
  {
    hide Key, Identity;
    var a, b := sources[..i], sources[..i + 1];
    assert b == a + [sources[i]];
    forall x | 0 <= x < i
      ensures Key(d, b[x]) != Key(d, b[i]) && Identity(d, b[x]) != Identity(d, b[i])
    {
      assert b[x] == a[x] == sources[x];
      assert HasKey(d, a[x], k) ==> k in keys;
      assert Identity(d, a[x]) == Ok(h) ==> h in handles;
    }
    KeysGrow(d, a, sources[i], keys, k);
  }

  lemma KeysGrow(d: Disk, paths: seq<Path>, p: Path, keys: set<Location>, k: Location)
    requires KeysOf(d, paths, keys) && HasKey(d, p, k)
    ensures KeysOf(d, paths + [p], keys + {k})
  {
    hide Key;
    var all := paths + [p];
    forall x
      ensures x in keys + {k} <==> exists i :: 0 <= i < |all| && HasKey(d, all[i], x)
    {
      if x in keys {
        var i :| 0 <= i < |paths| && HasKey(d, paths[i], x);
        assert HasKey(d, all[i], x);
      } else if x == k {
        assert HasKey(d, all[|paths|], x);
      } else {
        forall i | 0 <= i < |all|
          ensures !HasKey(d, all[i], x)
        {
          if i < |paths| {
            assert all[i] == paths[i];
          }
        }
      }
    }
  }

  /** Some other default has the same key. */
  ghost predicate Shared(d: Disk, defaults: seq<Path>, k: Location) {
    exists i, j :: 0 <= i < j < |defaults| && HasKey(d, defaults[i], k) && HasKey(d, defaults[j], k)
  }

  /** The tally of default keys. */
  ghost predicate Tallied(d: Disk, defaults: seq<Path>, counts: map<Location, nat>) {
    && (forall k :: k in counts <==> exists i :: 0 <= i < |defaults| && HasKey(d, defaults[i], k))
    && (forall k :: k in counts ==> counts[k] >= 1 && (counts[k] > 1 <==> Shared(d, defaults, k)))
  }

  lemma TallyGrows(d: Disk, defaults: seq<Path>, p: Path, counts: map<Location, nat>, k: Location)
    requires Tallied(d, defaults, counts) && HasKey(d, p, k)
    ensures Tallied(d, defaults + [p], counts[k := (if k in counts then counts[k] else 0) + 1])
  {
    hide Key;
    var all, counts' := defaults + [p], counts[k := (if k in counts then counts[k] else 0) + 1];
    KeysGrow(d, defaults, p, counts.Keys, k);
    assert counts'.Keys == counts.Keys + {k};
    forall x | x in counts'
      ensures counts'[x] >= 1 && (counts'[x] > 1 <==> Shared(d, all, x))
    {
      SharedGrows(d, defaults, p, x);
    }
  }

  lemma SharedGrows(d: Disk, defaults: seq<Path>, p: Path, k: Location)
    ensures Shared(d, defaults + [p], k) <==>
      Shared(d, defaults, k) || (HasKey(d, p, k) && exists i :: 0 <= i < |defaults| && HasKey(d, defaults[i], k))
  {
    hide HasKey;
    var all, n := defaults + [p], |defaults|;
    if Shared(d, defaults, k) {
      var i, j :| 0 <= i < j < n && HasKey(d, defaults[i], k) && HasKey(d, defaults[j], k);
      assert HasKey(d, all[i], k) && HasKey(d, all[j], k);
    } else if HasKey(d, p, k) && exists i :: 0 <= i < n && HasKey(d, defaults[i], k) {
      var i :| 0 <= i < n && HasKey(d, defaults[i], k);
      assert HasKey(d, all[i], k) && HasKey(d, all[n], k);
    } else {
      forall i, j | 0 <= i < j < |all|
        ensures !(HasKey(d, all[i], k) && HasKey(d, all[j], k))
      {
        assert all[i] == defaults[i];
        if j < n {
          assert all[j] == defaults[j];
        }
      }
    }
  }

  method CountDefaults(d: Disk, defaults: seq<Path>, flaky: bool) returns (r: Result<map<Location, nat>>)
    ensures r.Ok? ==> Tallied(d, defaults, r.value) && forall i :: 0 <= i < |defaults| ==> Key(d, defaults[i]).Ok?
    ensures r.Err? ==> !r.error.OutputCollision?
    ensures r.Err? && !flaky ==> exists i :: 0 <= i < |defaults| && Key(d, defaults[i]).Err?
  {
    hide PeeledKey, Key, Tallied;
    var counts: map<Location, nat> := map[];
    NoTally(d);
    for i := 0 to |defaults|
      invariant Tallied(d, defaults[..i], counts)
      invariant forall j :: 0 <= j < i ==> Key(d, defaults[j]).Ok?
    {
      var works := Works(flaky);
      if !works {
        return Err(IoError(OtherIo));
      }
      var key := NormalizedPathKey(d, defaults[i]);
      if key.Err? {
        return Err(key.error);
      }
      TallyGrows(d, defaults[..i], defaults[i], counts, key.value);
      assert defaults[..i] + [defaults[i]] == defaults[..i + 1];
      counts := counts[key.value := (if key.value in counts then counts[key.value] else 0) + 1];
    }
    assert defaults[..|defaults|] == defaults;
    r := Ok(counts);
  }

  lemma NoTally(d: Disk)
    ensures Tallied(d, [], map[])
  {
  }

  method DefaultPaths(utf8: Name -> bool, sources: seq<Path>) returns (r: Result<seq<Path>>)
    ensures r.Ok? ==>
      |r.value| == |sources|
      && forall i :: 0 <= i < |sources| ==> DefaultEncryptedPath(utf8, sources[i]) == Ok(r.value[i])
    ensures r.Err? ==> r.error == IoError(OtherIo)
    ensures r.Err? ==> exists i :: 0 <= i < |sources| && DefaultEncryptedPath(utf8, sources[i]).Err?
  {
    var defaults: seq<Path> := [];
    for i := 0 to |sources|
      invariant |defaults| == i
      invariant forall j :: 0 <= j < i ==> DefaultEncryptedPath(utf8, sources[j]) == Ok(defaults[j])
    {
      var path := DefaultEncryptedPath(utf8, sources[i]);
      if path.Err? {
        return Err(path.error);
      }
      defaults := defaults + [path.value];
    }
    r := Ok(defaults);
  }

  /** The output of one source: its default exactly if nothing speaks against it, a free random variant otherwise. */
  method PlanOne(d: Disk, utf8: Name -> bool, source: Path, preferred: Path, shared: bool, unavailable: set<Location>,
                 flaky: bool)
    returns (r: Result<Path>)
    requires Tree(d) && DefaultEncryptedPath(utf8, source) == Ok(preferred) && Key(d, preferred).Ok?
    ensures r.Ok? ==>
      && Key(d, r.value).Ok? && Key(d, r.value).value !in unavailable
      && (r.value == preferred <==>
            !(shared || Key(d, preferred).value in unavailable || OneFile(d, source, preferred)))
      && (r.value != preferred ==> IsVariant(source, r.value) && (!flaky ==> Canonicalize(d, r.value).Err?))
    ensures r.Err? && r.error.OutputCollision? ==> r.error == OutputCollision(NoUniqueName)
    ensures r.Err? && !flaky ==>
      || r.error == OutputCollision(NoUniqueName)
      || Unanswerable(d, source, preferred) || !VariantsHaveKeys(d, source)
  {
    hide PeeledKey, Key, Canonicalize, OneFile, Unanswerable, Tree, IsVariant, DefaultEncryptedPath, VariantsHaveKeys;
    var works := Works(flaky);
    if !works {
      return Err(IoError(OtherIo));
    }
    var key := NormalizedPathKey(d, preferred);
    var collides := shared || key.value in unavailable;
    if !collides {
      var same := PathsReferToSameFile(d, source, preferred, flaky);
      if same.Err? {
        return Err(same.error);
      }
      collides := same.value;
    }
    if collides {
      r := UniqueEncryptedPath(d, utf8, source, unavailable, flaky);
      if r.Ok? {
        VariantDiffers(utf8, source, r.value);
      }
    } else {
      r := Ok(preferred);
    }
  }

  // ------------------------------------------------------------ the plan

  /** Outputs have keys of their own, none of them a source's. */
  ghost predicate Sound(d: Disk, plans: seq<EncryptionPlan>, sources: seq<Path>) {
    && (forall i :: 0 <= i < |plans| ==> Key(d, plans[i].output).Ok?)
    && (forall i, j :: 0 <= i < j < |plans| ==> Key(d, plans[i].output) != Key(d, plans[j].output))
    && (forall i, j :: 0 <= i < |plans| && 0 <= j < |sources| ==> Key(d, plans[i].output) != Key(d, sources[j]))
  }

  /** What speaks against the default of source `i`: another source has the same default, a source is there, it is the
      source itself, or a variant drawn before happens to be there. */
  ghost predicate Collides(d: Disk, sources: seq<Path>, defaults: seq<Path>, plans: seq<EncryptionPlan>, i: nat)
    requires i < |sources| == |defaults| && i <= |plans|
  {
    || (exists j :: 0 <= j < |defaults| && j != i && Key(d, defaults[j]) == Key(d, defaults[i]))
    || (exists j :: 0 <= j < |sources| && Key(d, sources[j]) == Key(d, defaults[i]))
    || OneFile(d, sources[i], defaults[i])
    || (exists j :: 0 <= j < i && Key(d, plans[j].output) == Key(d, defaults[i]))
  }

  ghost predicate Chosen(d: Disk, sources: seq<Path>, defaults: seq<Path>, plans: seq<EncryptionPlan>, i: nat,
                         flaky: bool)
    requires i < |plans| <= |sources| == |defaults|
  {
    && plans[i].source == sources[i]
    && (plans[i].output == defaults[i] <==> !Collides(d, sources, defaults, plans, i))
    && (plans[i].output != defaults[i] ==>
          IsVariant(sources[i], plans[i].output) && (!flaky ==> Canonicalize(d, plans[i].output).Err?))
  }

  /** The keys no further output may have. */
  ghost predicate Taken(d: Disk, sources: seq<Path>, plans: seq<EncryptionPlan>, unavailable: set<Location>) {
    forall k :: k in unavailable <==>
      || (exists j :: 0 <= j < |sources| && HasKey(d, sources[j], k))
      || (exists j :: 0 <= j < |plans| && HasKey(d, plans[j].output, k))
  }

  lemma SharedMeans(d: Disk, defaults: seq<Path>, i: nat, k: Location)
    requires i < |defaults| && HasKey(d, defaults[i], k)
    ensures Shared(d, defaults, k) <==>
      exists j :: 0 <= j < |defaults| && j != i && Key(d, defaults[j]) == Key(d, defaults[i])
  {
    hide Key;
    if Shared(d, defaults, k) {
      var a, b :| 0 <= a < b < |defaults| && HasKey(d, defaults[a], k) && HasKey(d, defaults[b], k);
      var j := if a == i then b else a;
      assert Key(d, defaults[j]) == Key(d, defaults[i]);
    } else {
      forall j | 0 <= j < |defaults| && j != i
        ensures Key(d, defaults[j]) != Key(d, defaults[i])
      {
        assert !(HasKey(d, defaults[if j < i then j else i], k) && HasKey(d, defaults[if j < i then i else j], k));
      }
    }
  }

  /** The program's test is the collision described by `Collides`. */
  lemma CollisionTest(d: Disk, sources: seq<Path>, defaults: seq<Path>, plans: seq<EncryptionPlan>, i: nat,
                      unavailable: set<Location>, k: Location)
    requires i < |sources| == |defaults| && i == |plans| && Taken(d, sources, plans, unavailable)
    requires HasKey(d, defaults[i], k)
    ensures Collides(d, sources, defaults, plans, i) <==>
      Shared(d, defaults, k) || k in unavailable || OneFile(d, sources[i], defaults[i])
  {
    hide Key, OneFile, Shared;
    SharedMeans(d, defaults, i, k);
    assert Key(d, defaults[i]) == Ok(k);
    forall j | 0 <= j < |sources|
      ensures HasKey(d, sources[j], k) <==> Key(d, sources[j]) == Key(d, defaults[i])
    {
    }
    forall j | 0 <= j < i
      ensures HasKey(d, plans[j].output, k) <==> Key(d, plans[j].output) == Key(d, defaults[i])
    {
    }
  }

  ghost predicate HasPlace(d: Disk, p: Path) {
    NoLinkOn(d, p) && Key(d, p).Ok?
  }

  /** Where no links are passed, collisions can be told from places and inodes: another default, a source or an earlier
      output has the default's place, or what is there is the source under another name. */
  lemma CollidesByPlace(d: Disk, utf8: Name -> bool, sources: seq<Path>, defaults: seq<Path>,
                        plans: seq<EncryptionPlan>, i: nat)
    requires Tree(d) && i < |sources| == |defaults| && i <= |plans|
    requires forall j :: 0 <= j < |sources| ==> HasPlace(d, sources[j]) && HasPlace(d, defaults[j])
    requires forall j :: 0 <= j < i ==> HasPlace(d, plans[j].output)
    requires DefaultEncryptedPath(utf8, sources[i]) == Ok(defaults[i])
    requires LstatPath(d, sources[i]).Ok? && LstatPath(d, sources[i]).value.File?
    requires NodeAt(d, Lexical(defaults[i])).None? || NodeAt(d, Lexical(defaults[i])).value.File?
    ensures IsFile(d, sources[i])
    ensures Collides(d, sources, defaults, plans, i) <==>
      || (exists j :: 0 <= j < |defaults| && j != i && Lexical(defaults[j]) == Lexical(defaults[i]))
      || (exists j :: 0 <= j < |sources| && Lexical(sources[j]) == Lexical(defaults[i]))
      || (exists j :: 0 <= j < i && Lexical(plans[j].output) == Lexical(defaults[i]))
      || (IsFile(d, defaults[i]) && d.dir[Lexical(defaults[i])].inode == d.dir[Lexical(sources[i])].inode)
  {
    hide Key, NoLinkOn, Lexical, Tree, OneFile, Unanswerable, IsFile, Canonicalize;
    var p := defaults[i];
    SiblingHasDirectory(d, utf8, sources[i], p);
    OneFileExactly(d, sources[i], p);
    forall j | 0 <= j < |sources|
      ensures Key(d, sources[j]) == Key(d, p) <==> Lexical(sources[j]) == Lexical(p)
      ensures Key(d, defaults[j]) == Key(d, p) <==> Lexical(defaults[j]) == Lexical(p)
    {
      KeyIdempotent(d, p, sources[j]);
      KeyIdempotent(d, p, defaults[j]);
    }
    forall j | 0 <= j < i
      ensures Key(d, plans[j].output) == Key(d, p) <==> Lexical(plans[j].output) == Lexical(p)
    {
      KeyIdempotent(d, p, plans[j].output);
    }
  }

  lemma SiblingHasDirectory(d: Disk, utf8: Name -> bool, source: Path, output: Path)
    requires DefaultEncryptedPath(utf8, source) == Ok(output) && LstatPath(d, source).Ok?
    ensures HasDirectory(d, output)
  {
    hide Canonicalize;
    assert output[..|output| - 1] == source[..|source| - 1];
  }

  lemma TakenGrows(d: Disk, sources: seq<Path>, plans: seq<EncryptionPlan>, unavailable: set<Location>,
                   next: EncryptionPlan, k: Location)
    requires Taken(d, sources, plans, unavailable) && HasKey(d, next.output, k)
    ensures Taken(d, sources, plans + [next], unavailable + {k})
    ensures Sound(d, plans, sources) && k !in unavailable ==> Sound(d, plans + [next], sources)
  {
    hide Key;
    var all, n := plans + [next], |plans|;
    forall x
      ensures x in unavailable + {k} <==>
        || (exists j :: 0 <= j < |sources| && HasKey(d, sources[j], x))
        || (exists j :: 0 <= j < |all| && HasKey(d, all[j].output, x))
    {
      if exists j :: 0 <= j < n && HasKey(d, plans[j].output, x) {
        var j :| 0 <= j < n && HasKey(d, plans[j].output, x);
        assert HasKey(d, all[j].output, x);
      }
      if x == k {
        assert HasKey(d, all[n].output, x);
      }
      forall j | 0 <= j < |all|
        ensures all[j] == if j < n then plans[j] else next
      {
      }
    }
    if Sound(d, plans, sources) && k !in unavailable {
      forall j | 0 <= j < n
        ensures Key(d, plans[j].output) != Ok(k)
      {
        assert HasKey(d, plans[j].output, k) ==> k in unavailable;
      }
      forall j | 0 <= j < |sources|
        ensures Key(d, sources[j]) != Ok(k)
      {
        assert HasKey(d, sources[j], k) ==> k in unavailable;
      }
    }
  }

  /** Later plans do not change why an earlier output was chosen. */
  lemma ChosenStays(d: Disk, sources: seq<Path>, defaults: seq<Path>, plans: seq<EncryptionPlan>, next: EncryptionPlan,
                    flaky: bool)
    requires |plans| < |sources| == |defaults|
    requires forall j :: 0 <= j < |plans| ==> Chosen(d, sources, defaults, plans, j, flaky)
    ensures forall j :: 0 <= j < |plans| ==> Chosen(d, sources, defaults, plans + [next], j, flaky)
  {
    hide Key, OneFile, IsVariant, Canonicalize;
    var all := plans + [next];
    forall j | 0 <= j < |plans|
      ensures Chosen(d, sources, defaults, all, j, flaky)
    {
      assert all[j] == plans[j];
      assert Chosen(d, sources, defaults, plans, j, flaky);
      forall m | 0 <= m < j
        ensures all[m] == plans[m]
      {
      }
      assert Collides(d, sources, defaults, plans, j) == Collides(d, sources, defaults, all, j);
    }
  }

  /** A plan for the collected sources: one per source, in order, each output chosen as described. */
  ghost predicate Planned(d: Disk, utf8: Name -> bool, sources: seq<Path>, plans: seq<EncryptionPlan>, flaky: bool) {
    && SourcesDistinct(d, sources) && |plans| == |sources| && Sound(d, plans, sources)
    && (forall i :: 0 <= i < |plans| ==> plans[i].source == sources[i])
    && exists defaults :: DefaultsOf(utf8, sources, defaults)
         && forall i :: 0 <= i < |plans| ==> Chosen(d, sources, defaults, plans, i, flaky)
  }

  ghost predicate DefaultsOf(utf8: Name -> bool, sources: seq<Path>, defaults: seq<Path>) {
    && |defaults| == |sources|
    && forall i :: 0 <= i < |sources| ==> DefaultEncryptedPath(utf8, sources[i]) == Ok(defaults[i])
  }

  /** The file system does not answer what planning this source must ask. */
  ghost predicate Hindered(d: Disk, source: Path, preferred: Path) {
    Unanswerable(d, source, preferred) || !VariantsHaveKeys(d, source)
  }

  /** The loop over the sources; its closing collision error never arises. */
  method PlanSources(d: Disk, utf8: Name -> bool, sources: seq<Path>, defaults: seq<Path>, counts: map<Location, nat>,
                     sourceKeys: set<Location>, flaky: bool)
    returns (r: Result<seq<EncryptionPlan>>)
    requires Tree(d) && DefaultsOf(utf8, sources, defaults) && Tallied(d, defaults, counts)
    requires KeysOf(d, sources, sourceKeys)
    requires forall i :: 0 <= i < |defaults| ==> Key(d, defaults[i]).Ok?
    ensures r.Ok? ==>
      && |r.value| == |sources| && Sound(d, r.value, sources)
      && forall i :: 0 <= i < |sources| ==> Chosen(d, sources, defaults, r.value, i, flaky)
    ensures r.Err? && r.error.OutputCollision? ==> r.error == OutputCollision(NoUniqueName)
    ensures r.Err? && !flaky ==>
      || r.error == OutputCollision(NoUniqueName)
      || exists i :: 0 <= i < |sources| && Hindered(d, sources[i], defaults[i])
  {
    hide PeeledKey, Key, OneFile, Unanswerable, Tree, IsVariant, Canonicalize, DefaultEncryptedPath, Collides, Shared,
         Taken, Sound, VariantsHaveKeys;
    var unavailable := sourceKeys;
    var plans: seq<EncryptionPlan> := [];
    NothingPlanned(d, sources, sourceKeys);
    for i := 0 to |sources|
      invariant |plans| == i && Sound(d, plans, sources) && Taken(d, sources, plans, unavailable)
      invariant forall j :: 0 <= j < i ==> Chosen(d, sources, defaults, plans, j, flaky)
    {
      var key := NormalizedPathKey(d, defaults[i]);
      var count := if key.value in counts then counts[key.value] else 0;
      assert HasKey(d, defaults[i], key.value);
      CollisionTest(d, sources, defaults, plans, i, unavailable, key.value);
      var output := PlanOne(d, utf8, sources[i], defaults[i], count > 1, unavailable, flaky);
      if output.Err? {
        return Err(output.error);
      }
      var outputKey := NormalizedPathKey(d, output.value);
      if outputKey.value in unavailable {
        return Err(OutputCollision(InputsMapTogether));
      }
      var plan := EncryptionPlan(sources[i], output.value);
      ChosenStays(d, sources, defaults, plans, plan, flaky);
      ChosenNow(d, sources, defaults, plans, plan, i, flaky);
      TakenGrows(d, sources, plans, unavailable, plan, outputKey.value);
      unavailable, plans := unavailable + {outputKey.value}, plans + [plan];
    }
    r := Ok(plans);
  }

  lemma NothingPlanned(d: Disk, sources: seq<Path>, keys: set<Location>)
    requires KeysOf(d, sources, keys)
    ensures Taken(d, sources, [], keys) && Sound(d, [], sources)
  {
  }

  lemma ChosenNow(d: Disk, sources: seq<Path>, defaults: seq<Path>, plans: seq<EncryptionPlan>, next: EncryptionPlan,
                  i: nat, flaky: bool)
    requires i == |plans| < |sources| == |defaults| && next.source == sources[i]
    requires next.output == defaults[i] <==> !Collides(d, sources, defaults, plans, i)
    requires next.output != defaults[i] ==>
      IsVariant(sources[i], next.output) && (!flaky ==> Canonicalize(d, next.output).Err?)
    ensures Chosen(d, sources, defaults, plans + [next], i, flaky)
  {
    hide Key, OneFile, IsVariant, Canonicalize;
    var all := plans + [next];
    forall m | 0 <= m < i
      ensures all[m] == plans[m]
    {
    }
    assert Collides(d, sources, defaults, plans, i) == Collides(d, sources, defaults, all, i);
  }

  lemma PlannedFrom(d: Disk, utf8: Name -> bool, sources: seq<Path>, defaults: seq<Path>, plans: seq<EncryptionPlan>,
                    flaky: bool)
    requires SourcesDistinct(d, sources) && |plans| == |sources| && Sound(d, plans, sources)
    requires DefaultsOf(utf8, sources, defaults)
    requires forall i :: 0 <= i < |sources| ==> Chosen(d, sources, defaults, plans, i, flaky)
    ensures Planned(d, utf8, sources, plans, flaky)
  {
    hide SourcesDistinct, Sound, Collides, DefaultEncryptedPath, IsVariant, Canonicalize;
    forall i | 0 <= i < |plans|
      ensures plans[i].source == sources[i]
    {
      assert Chosen(d, sources, defaults, plans, i, flaky);
    }
  }

  /** A plan for exactly what the inputs stand for. */
  ghost predicate PlanFor(d: Disk, utf8: Name -> bool, inputs: seq<Path>, plans: seq<EncryptionPlan>, flaky: bool) {
    exists sources, parts :: Collected(d, inputs, false, parts, sources) && Planned(d, utf8, sources, plans, flaky)
  }

  /** The sources are all different and the file system answers every question. */
  ghost predicate PlanReady(d: Disk, utf8: Name -> bool, sources: seq<Path>) {
    && SourcesDistinct(d, sources)
    && forall i :: 0 <= i < |sources| ==>
         && DefaultEncryptedPath(utf8, sources[i]).Ok? && Key(d, DefaultEncryptedPath(utf8, sources[i]).value).Ok?
         && !Hindered(d, sources[i], DefaultEncryptedPath(utf8, sources[i]).value)
  }

  /** There is cause for planning to fail: some input cannot be collected, or the sources are not ready. */
  ghost predicate Unplannable(d: Disk, utf8: Name -> bool, inputs: seq<Path>) {
    || (exists i :: 0 <= i < |inputs| && !Collectable(d, inputs[i]))
    || exists sources, parts :: Collected(d, inputs, false, parts, sources) && !PlanReady(d, utf8, sources)
  }

  lemma NotReady(d: Disk, utf8: Name -> bool, inputs: seq<Path>, sources: seq<Path>, parts: seq<seq<Path>>)
    requires Collected(d, inputs, false, parts, sources) && !PlanReady(d, utf8, sources)
    ensures Unplannable(d, utf8, inputs)
  {
  }

  /** Plans an encryption batch.  The sources are the collected files, in order and all different; every source has one
      output; outputs differ from each other and from every source.  Without a cause, only running out of random names
      makes it fail. */
  method PlanEncryptionInputs(d: Disk, utf8: Name -> bool, inputs: seq<Path>, flaky: bool)
    returns (r: Result<seq<EncryptionPlan>>)
    requires Tree(d)
    ensures r.Ok? ==> PlanFor(d, utf8, inputs, r.value, flaky)
    ensures r.Err? && !flaky ==> r.error == OutputCollision(NoUniqueName) || Unplannable(d, utf8, inputs)
    ensures r.Err? && r.error.OutputCollision? ==>
      r.error == OutputCollision(NoUniqueName) || (r.error == OutputCollision(SpecifiedTwice) && Twice(d, inputs))
  {
    hide Collected, SourcesDistinct, Sound, Chosen, Tallied, KeysOf, Key, Tree, OneFile, DefaultEncryptedPath, Planned,
         Collectable, Hindered, Unplannable;
    var collected;
    ghost var parts;
    collected, parts := CollectInputs(d, inputs, false, flaky);
    if collected.Err? {
      CannotCollect(d, utf8, inputs);
      return Err(collected.error);
    }
    var sources := collected.value;
    if !flaky && !PlanReady(d, utf8, sources) {
      NotReady(d, utf8, inputs, sources, parts);
    }
    var keys := CheckSources(d, sources, flaky);
    if keys.Err? {
      if keys.error.OutputCollision? {
        TwiceAmongInputs(d, inputs, sources, parts);
      }
      return Err(keys.error);
    }
    var defaults := DefaultPaths(utf8, sources);
    if defaults.Err? {
      return Err(defaults.error);
    }
    var counts := CountDefaults(d, defaults.value, flaky);
    if counts.Err? {
      return Err(counts.error);
    }
    assert DefaultsOf(utf8, sources, defaults.value);
    r := PlanSources(d, utf8, sources, defaults.value, counts.value, keys.value, flaky);
    if r.Ok? {
      PlannedFrom(d, utf8, sources, defaults.value, r.value, flaky);
    }
  }

  /** Two of the collected files are one. */
  ghost predicate Twice(d: Disk, inputs: seq<Path>) {
    exists sources, parts :: Collected(d, inputs, false, parts, sources) && HasTwins(d, sources)
  }

  ghost predicate HasTwins(d: Disk, sources: seq<Path>) {
    exists i, j :: 0 <= i < j < |sources| && OneFile(d, sources[i], sources[j])
  }

  lemma TwiceAmongInputs(d: Disk, inputs: seq<Path>, sources: seq<Path>, parts: seq<seq<Path>>)
    requires Collected(d, inputs, false, parts, sources)
    requires exists i, j :: 0 <= i < j < |sources| && OneFile(d, sources[i], sources[j])
    ensures Twice(d, inputs)
  {
    hide Collected, OneFile;
    assert HasTwins(d, sources);
  }

  lemma CannotCollect(d: Disk, utf8: Name -> bool, inputs: seq<Path>)
    ensures (exists i :: 0 <= i < |inputs| && !Collectable(d, inputs[i])) ==> Unplannable(d, utf8, inputs)
  {
  }
}
