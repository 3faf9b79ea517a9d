/** File names: splitting a stored name into components, stems and extensions. */
module Names {
  import opened Bytes
  import opened Results
  import opened FileSystem

  const SLASH: byte := 0x2F
  const DOT: byte := 0x2E
  const IRONLOCK_EXTENSION: Name := [0x69, 0x6C]                                                  // "il"
  const DECRYPTED: Name := [0x2D, 0x64, 0x65, 0x63, 0x72, 0x79, 0x70, 0x74, 0x65, 0x64, 0x2D]     // "-decrypted-"

  /** A name that can stand for an entry of a directory. */
  predicate PlainName(n: Name) {
    n != [] && SLASH !in n && n != [DOT] && n != [DOT, DOT]
  }

  // ------------------------------------------------------------ components of a stored name

  function FirstSlash(s: seq<byte>): (i: nat)
    ensures i <= |s| && (i < |s| ==> s[i] == SLASH) && forall k :: 0 <= k < i ==> s[k] != SLASH
  {
    if s == [] || s[0] == SLASH then 0 else 1 + FirstSlash(s[1..])
  }

  function Significant(head: Name): seq<Name> {
    if head == [] || head == [DOT] then [] else [head]
  }

  /** The parts between slashes; empty ones and `.` mean nothing. */
  function Components(s: seq<byte>): seq<Name>
    decreases |s|
  {
    if s == [] then []
    else
      var i := FirstSlash(s);
      Significant(s[..i]) + (if i < |s| then Components(s[i + 1..]) else [])
  }

  /** The name to write to: the last component of what the encrypted file claims. */
  function SanitizedFilename(claimed: seq<byte>): Result<Name> {
    var parts := Components(claimed);
    if parts == [] || parts[|parts| - 1] == [DOT, DOT] then Err(UnsafePath)
    else
      var name := parts[|parts| - 1];
      if name == [] || name == [DOT] || name == [DOT, DOT] then Err(UnsafePath) else Ok(name)
  }

  lemma {:induction false} ComponentsArePlain(s: seq<byte>)
    ensures forall n :: n in Components(s) ==> n != [] && SLASH !in n && n != [DOT]
    decreases |s|
  {
    if s != [] {
      var i := FirstSlash(s);
      if i < |s| {
        ComponentsArePlain(s[i + 1..]);
      }
    }
  }

  lemma ComponentsFrom(s: seq<byte>, i: nat)
    requires i < |s| && s[i] == SLASH && forall k :: 0 <= k < i ==> s[k] != SLASH
    ensures Components(s) == Significant(s[..i]) + Components(s[i + 1..])
  {
    assert FirstSlash(s) == i;
  }

  lemma ComponentsOne(s: seq<byte>)
    requires forall k :: 0 <= k < |s| ==> s[k] != SLASH
    ensures Components(s) == Significant(s)
  {
    assert FirstSlash(s) == |s| && s[..|s|] == s;
  }

  /** A slash separates what is before it from what is after it. */
  lemma {:induction false} ComponentsSplit(a: seq<byte>, b: seq<byte>)
    ensures Components(a + [SLASH] + b) == Components(a) + Components(b)
    decreases |a|
  {
    hide Components, Significant;
    var whole := a + [SLASH] + b;
    var i := FirstSlash(a);
    ComponentsFrom(whole, i);
    assert whole[..i] == a[..i];
    if i < |a| {
      ComponentsFrom(a, i);
      ComponentsSplit(a[i + 1..], b);
      assert whole[i + 1..] == a[i + 1..] + [SLASH] + b;
    } else {
      ComponentsOne(a);
      assert whole[i + 1..] == b && a[..i] == a;
    }
  }

  lemma NothingHasNoComponents()
    ensures Components([]) == []
  {
  }

  lemma PlainComponents(n: Name)
    requires SLASH !in n && n != [] && n != [DOT]
    ensures Components(n) == [n]
  {
    ComponentsOne(n);
  }

  /** `name` stands at the end of `s`, followed by nothing but slashes and single dots. */
  ghost predicate EndsIn(s: seq<byte>, name: Name) {
    exists before, after :: EndsInBetween(s, before, name, after)
  }

  ghost predicate EndsInBetween(s: seq<byte>, before: seq<byte>, name: Name, after: seq<byte>) {
    && s == before + name + after
    && (before == [] || before[|before| - 1] == SLASH)
    && (after == [] || after[0] == SLASH) && Components(after) == []
  }

  /** The last component of `s`, found without taking `s` apart. */
  lemma {:induction false} LastComponentFound(s: seq<byte>) returns (before: seq<byte>, after: seq<byte>)
    requires Components(s) != []
    ensures EndsInBetween(s, before, Components(s)[|Components(s)| - 1], after)
    decreases |s|
  {
    hide Components;
    NothingHasNoComponents();
    var i := FirstSlash(s);
    if i == |s| {
      ComponentsOne(s);
      before, after := [], [];
      assert s == before + s + after;
    } else {
      ComponentsFrom(s, i);
      var head, rest := s[..i + 1], s[i + 1..];
      assert s == head + rest;
      if Components(rest) != [] {
        var inner;
        inner, after := LastComponentFound(rest);
        var name := Components(rest)[|Components(rest)| - 1];
        before := head + inner;
        assert head + (inner + name + after) == before + name + after;
      } else {
        before, after := [], s[i..];
        assert s == before + s[..i] + after;
        LeadingSlash(after);
      }
    }
  }

  lemma LeadingSlash(s: seq<byte>)
    requires s != [] && s[0] == SLASH
    ensures Components(s) == Components(s[1..])
  {
    hide Components;
    ComponentsFrom(s, 0);
  }

  lemma {:induction false} EndsInLast(s: seq<byte>, before: seq<byte>, name: Name, after: seq<byte>)
    requires EndsInBetween(s, before, name, after) && SLASH !in name && name != [] && name != [DOT]
    ensures Components(s) == Components(before) + [name]
  {
    hide Components, Significant;
    NothingHasNoComponents();
    PlainComponents(name);
    var front := before + name;
    if after != [] {
      assert s == front + [SLASH] + after[1..];
      ComponentsSplit(front, after[1..]);
      LeadingSlash(after);
    } else {
      assert s == front;
    }
    assert Components(s) == Components(front);
    if before != [] {
      var base := before[..|before| - 1];
      assert front == base + [SLASH] + name;
      assert before == base + [SLASH] + [];
      ComponentsSplit(base, name);
      ComponentsSplit(base, []);
    } else {
      assert front == name;
    }
  }

  /** The accepted names are exactly the plain last components; the closing filter never fires. */
  lemma SanitizedExact(claimed: seq<byte>, name: Name)
    ensures SanitizedFilename(claimed) == Ok(name) <==> PlainName(name) && EndsIn(claimed, name)
  {
    ComponentsArePlain(claimed);
    var parts := Components(claimed);
    if SanitizedFilename(claimed) == Ok(name) {
      var before, after := LastComponentFound(claimed);
      assert parts[|parts| - 1] in parts;
    } else if PlainName(name) && EndsIn(claimed, name) {
      var before, after :| EndsInBetween(claimed, before, name, after);
      EndsInLast(claimed, before, name, after);
    }
  }

  /** A claimed name that is already plain is taken as it is, so an encrypted file gets its own name back. */
  lemma PlainNameSurvives(name: Name)
    requires PlainName(name)
    ensures SanitizedFilename(name) == Ok(name)
  {
    PlainComponents(name);
  }

  // ------------------------------------------------------------ stems and extensions

  function LastDot(n: Name): (i: int)
    ensures -1 <= i < |n| && (i >= 0 ==> n[i] == DOT) && forall k :: i < k < |n| ==> n[k] != DOT
  {
    if n == [] then -1
    else if n[|n| - 1] == DOT then |n| - 1
    else
      LastDot(n[..|n| - 1])
  }

  /** Everything before the last dot, unless that dot comes first. */
  function Stem(n: Name): Name {
    if LastDot(n) <= 0 then n else n[..LastDot(n)]
  }

  function Extension(n: Name): Option<Name> {
    if LastDot(n) <= 0 then None else Some(n[LastDot(n) + 1..])
  }

  function Dotted(stem: Name, extension: Name): Name {
    stem + [DOT] + extension
  }

  function EncryptedName(n: Name): Name {
    Dotted(Stem(n), IRONLOCK_EXTENSION)
  }

  /** The two parts determine the name, and the extension is what follows the last dot. */
  lemma NameParts(n: Name)
    ensures match Extension(n)
      case None => n == Stem(n) && (DOT in n ==> n[0] == DOT && DOT !in n[1..])
      case Some(e) => n == Dotted(Stem(n), e) && DOT !in e && Stem(n) != []
  {
  }

  /** Every encrypted name carries the extension the decryption side asks for, and keeps the stem. */
  lemma EncryptedNameParts(n: Name)
    requires n != []
    ensures Extension(EncryptedName(n)) == Some(IRONLOCK_EXTENSION) && Stem(EncryptedName(n)) == Stem(n)
  {
    var e := EncryptedName(n);
    var i := |Stem(n)|;
    assert e[i] == DOT && forall k :: i < k < |e| ==> e[k] == IRONLOCK_EXTENSION[k - i - 1];
    assert LastDot(e) == i;
    assert e[i + 1..] == IRONLOCK_EXTENSION;
    assert e[..i] == Stem(n);
  }

  // ------------------------------------------------------------ random suffixes

  function HexDigit(d: nat): byte
    requires d < 16
  {
    if d < 10 then 0x30 + d else 0x57 + d
  }

  /** The low digits of `n` in base sixteen, most significant first. */
  function Hex(n: nat, width: nat): (s: Name)
    ensures |s| == width && SLASH !in s && DOT !in s
    decreases width
  {
    if width == 0 then [] else Hex(n / 16, width - 1) + [HexDigit(n % 16)]
  }

  function Pow16(width: nat): (n: nat)
    ensures n >= 1
  {
    if width == 0 then 1 else 16 * Pow16(width - 1)
  }

  /** Different suffixes give different names. */
  lemma {:induction false} HexInjective(m: nat, n: nat, width: nat)
    requires m < Pow16(width) && n < Pow16(width) && Hex(m, width) == Hex(n, width)
    ensures m == n
    decreases width
  {
    if width > 0 {
      var a, b := Hex(m / 16, width - 1), Hex(n / 16, width - 1);
      assert (a + [HexDigit(m % 16)])[..width - 1] == a;
      assert (b + [HexDigit(n % 16)])[..width - 1] == b;
      assert (a + [HexDigit(m % 16)])[width - 1] == (b + [HexDigit(n % 16)])[width - 1];
      HexInjective(m / 16, n / 16, width - 1);
    }
  }

  method NextU64() returns (n: nat)
    ensures n < U64_LIMIT
  {
    var x: int := *;
    n := if 0 <= x < U64_LIMIT then x else 0;
  }

  /** The random alternative to an output that would replace its own encrypted source. */
  function DecryptedVariant(n: Name, suffix: nat): Name {
    var base := Stem(n) + DECRYPTED + Hex(suffix, 16);
    match Extension(n)
    case None => base
    case Some(e) => Dotted(base, e)
  }

  lemma DecryptedVariantDiffers(n: Name, suffix: nat)
    requires PlainName(n)
    ensures PlainName(DecryptedVariant(n, suffix)) && |DecryptedVariant(n, suffix)| == |n| + 27
  {
    NameParts(n);
  }

  function Join(directory: Location, name: Name): Location {
    directory + [name]
  }
}
