/** packages/validator-bonds-cli-core/src/npmRegistry.ts: the order of versions behind the CLI's update gate. */
module Versions {
  import opened Wrappers
  import opened Sums
  import opened Sorting

  // ------------------------------------------------------------------- strings

  /** `split` by one character. */
  function Split(s: string, sep: char): (pieces: seq<string>)
    ensures |pieces| >= 1
  {
    if s == "" then [""]
    else
      var pieces := Split(s[1..], sep);
      if s[0] == sep then [""] + pieces else [[s[0]] + pieces[0]] + pieces[1..]
  }

  /** `join` by one character. */
  function Join(pieces: seq<string>, sep: char): string {
    if pieces == [] then "" else if |pieces| == 1 then pieces[0] else pieces[0] + [sep] + Join(pieces[1..], sep)
  }

  predicate IsDigit(c: char) {
    '0' <= c <= '9'
  }

  function DigitValue(c: char): nat
    requires IsDigit(c)
  {
    c as int - '0' as int
  }

  /** White space as `parseInt` skips it. */
  predicate IsSpace(c: char) {
    var n := c as int;
    9 <= n <= 13 || n == 0x20 || n == 0xA0 || n == 0x1680 || 0x2000 <= n <= 0x200A
    || n == 0x2028 || n == 0x2029 || n == 0x202F || n == 0x205F || n == 0x3000 || n == 0xFEFF
  }

  /** These are tab, line feed, vertical tab, form feed, carriage return, the spaces, the line and paragraph separators
      and the byte order mark. */
  lemma SpacesAre(c: char)
    ensures IsSpace(c)
       <==> c in "\t\n\U{000B}\U{000C}\r \U{00A0}\U{1680}\U{2000}\U{2001}\U{2002}\U{2003}\U{2004}\U{2005}\U{2006}"
            || c in "\U{2007}\U{2008}\U{2009}\U{200A}\U{2028}\U{2029}\U{202F}\U{205F}\U{3000}\U{FEFF}"
  {
  }

  function SkipSpace(s: string): string {
    if s != "" && IsSpace(s[0]) then SkipSpace(s[1..]) else s
  }

  /** The number that the digits at the start of `s` continue. */
  function ParseDigits(s: string, value: nat): nat {
    if s != "" && IsDigit(s[0]) then ParseDigits(s[1..], 10 * value + DigitValue(s[0])) else value
  }

  /** `parseInt(_, 10)`; None is NaN. */
  function ParseInt(s: string): Option<int> {
    var trimmed := SkipSpace(s);
    var negative := trimmed != "" && trimmed[0] == '-';
    var digits := if trimmed != "" && (trimmed[0] == '-' || trimmed[0] == '+') then trimmed[1..] else trimmed;
    var n: int := ParseDigits(digits, 0);
    if digits == "" || !IsDigit(digits[0]) then None else Some(if negative then -n else n)
  }

  /** `String` of a number. */
  function Decimal(n: int): string
    decreases if n < 0 then 1 - n else n
  {
    if n < 0 then "-" + Decimal(-n)
    else if n < 10 then ['0' + n as char]
    else Decimal(n / 10) + ['0' + (n % 10) as char]
  }

  // ------------------------------------------------------------------- versions

  datatype Version = Version(parts: seq<int>, prerelease: string)

  function Part(p: string): int {
    ParseInt(p).GetOr(0)
  }

  /** The parts of a version core. */
  function Parts(core: string): seq<int> {
    var pieces := Split(core, '.');
    seq(|pieces|, i requires 0 <= i < |pieces| => Part(pieces[i]))
  }

  /** `parse`; a missing and an empty prerelease are told apart nowhere. */
  function Parse(version: string): Version {
    var pieces := Split(version, '-');
    Version(Parts(pieces[0]), Join(pieces[1..], '-'))
  }

  /** A prerelease identifier that is a canonical number. */
  function NumericId(id: string): Option<int> {
    var n := ParseInt(id);
    if n.Some? && Decimal(n.value) == id then n else None
  }

  /** `localeCompare`. */
  type Locale = (string, string) -> int

  // ------------------------------------------------- the order, defined from the front

  function Head(parts: seq<int>): int {
    if parts == [] then 0 else parts[0]
  }

  function Tail(parts: seq<int>): seq<int> {
    if parts == [] then [] else parts[1..]
  }

  /** Missing parts count as zero. */
  function CompareParts(a: seq<int>, b: seq<int>): int
    decreases |a| + |b|
  {
    if a == [] && b == [] then 0
    else if Head(a) != Head(b) then Head(a) - Head(b)
    else CompareParts(Tail(a), Tail(b))
  }

  /** Numbers come before text. */
  function CompareId(locale: Locale, a: string, b: string): int {
    match (NumericId(a), NumericId(b))
    case (Some(m), Some(n)) => m - n
    case (Some(m), None) => -1
    case (None, Some(n)) => 1
    case (None, None) => locale(a, b)
  }

  /** A list of identifiers that ends first comes first. */
  function CompareIds(locale: Locale, a: seq<string>, b: seq<string>): int {
    if a == [] && b == [] then 0
    else if a == [] then -1
    else if b == [] then 1
    else if CompareId(locale, a[0], b[0]) != 0 then CompareId(locale, a[0], b[0])
    else CompareIds(locale, a[1..], b[1..])
  }

  /** Section 11 of SemVer 2.0.0: a prerelease comes before its release. */
  function ComparePrerelease(locale: Locale, a: string, b: string): int {
    if a != "" && b == "" then -1
    else if a == "" && b != "" then 1
    else if a == "" then 0
    else CompareIds(locale, Split(a, '.'), Split(b, '.'))
  }

  function CompareParsed(locale: Locale, a: Version, b: Version): int {
    if CompareParts(a.parts, b.parts) != 0 then CompareParts(a.parts, b.parts)
    else ComparePrerelease(locale, a.prerelease, b.prerelease)
  }

  function Compare(locale: Locale, a: string, b: string): int {
    CompareParsed(locale, Parse(a), Parse(b))
  }

  // ------------------------------------------------- the order by the first difference

  /** Missing parts count as zero. */
  function PartAt(parts: seq<int>, i: nat): int {
    if i < |parts| then parts[i] else 0
  }

  /** The parts agree before `i`, where those of `a` have the smaller one. */
  ghost predicate PartsDecide(a: seq<int>, b: seq<int>, i: nat) {
    PartAt(a, i) < PartAt(b, i) && forall j: nat :: j < i ==> PartAt(a, j) == PartAt(b, j)
  }

  ghost predicate SameParts(a: seq<int>, b: seq<int>) {
    forall j: nat :: PartAt(a, j) == PartAt(b, j)
  }

  lemma PartsDecideTail(a: seq<int>, b: seq<int>)
    requires Head(a) == Head(b)
    ensures (exists i: nat :: PartsDecide(a, b, i)) <==> exists i: nat :: PartsDecide(Tail(a), Tail(b), i)
    ensures SameParts(a, b) <==> SameParts(Tail(a), Tail(b))
  {
    forall j: nat
      ensures PartAt(Tail(a), j) == PartAt(a, j + 1) && PartAt(Tail(b), j) == PartAt(b, j + 1)
    {
    }
    assert PartAt(a, 0) == Head(a) && PartAt(b, 0) == Head(b);
    if i: nat :| PartsDecide(a, b, i) {
      assert i > 0;
      forall j: nat | j < i - 1
        ensures PartAt(Tail(a), j) == PartAt(Tail(b), j)
      {
        assert PartAt(a, j + 1) == PartAt(b, j + 1);
      }
      assert PartsDecide(Tail(a), Tail(b), i - 1);
    }
    if i: nat :| PartsDecide(Tail(a), Tail(b), i) {
      forall j: nat | j < i + 1
        ensures PartAt(a, j) == PartAt(b, j)
      {
        assert j > 0 ==> PartAt(Tail(a), j - 1) == PartAt(Tail(b), j - 1);
      }
      assert PartsDecide(a, b, i + 1);
    }
    if SameParts(Tail(a), Tail(b)) {
      forall j: nat
        ensures PartAt(a, j) == PartAt(b, j)
      {
        assert j > 0 ==> PartAt(Tail(a), j - 1) == PartAt(Tail(b), j - 1);
      }
    }
  }

  /** The first part that differs decides, missing parts being zero. */
  lemma {:induction false} PartsByFirstDifference(a: seq<int>, b: seq<int>)
    ensures CompareParts(a, b) < 0 <==> exists i: nat :: PartsDecide(a, b, i)
    ensures CompareParts(a, b) == 0 <==> SameParts(a, b)
    decreases |a| + |b|
  {
    if a != [] || b != [] {
      assert PartAt(a, 0) == Head(a) && PartAt(b, 0) == Head(b);
      if Head(a) == Head(b) {
        PartsByFirstDifference(Tail(a), Tail(b));
        PartsDecideTail(a, b);
      } else if Head(a) < Head(b) {
        assert PartsDecide(a, b, 0);
      }
    }
  }

  ghost predicate IsNumber(id: string) {
    exists n: int :: id == Decimal(n)
  }

  /** Numbers come in their order and before text; text comes as it is compared. */
  ghost predicate IdBefore(locale: Locale, x: string, y: string) {
    || (exists m: int, n: int :: x == Decimal(m) && y == Decimal(n) && m < n)
    || (IsNumber(x) && !IsNumber(y))
    || (!IsNumber(x) && !IsNumber(y) && locale(x, y) < 0)
  }

  ghost predicate SameId(locale: Locale, x: string, y: string) {
    (IsNumber(x) && x == y) || (!IsNumber(x) && !IsNumber(y) && locale(x, y) == 0)
  }

  lemma IdsCompared(locale: Locale, x: string, y: string)
    ensures CompareId(locale, x, y) < 0 <==> IdBefore(locale, x, y)
    ensures CompareId(locale, x, y) == 0 <==> SameId(locale, x, y)
  {
    forall id, n
      ensures NumericId(id) == Some(n) <==> id == Decimal(n)
    {
      NumericIffCanonical(id, n);
    }
    assert IsNumber(x) <==> NumericId(x).Some?;
    assert IsNumber(y) <==> NumericId(y).Some?;
  }

  /** The identifiers are the same before `i`, where those of `a` end or have the smaller one. */
  ghost predicate IdsDecide(locale: Locale, a: seq<string>, b: seq<string>, i: nat) {
    && i <= |a| && i < |b| && (forall j :: 0 <= j < i ==> SameId(locale, a[j], b[j]))
    && (i == |a| || IdBefore(locale, a[i], b[i]))
  }

  ghost predicate SameIds(locale: Locale, a: seq<string>, b: seq<string>) {
    |a| == |b| && forall j :: 0 <= j < |a| ==> SameId(locale, a[j], b[j])
  }

  lemma IdsDecideTail(locale: Locale, a: seq<string>, b: seq<string>)
    requires a != [] && b != [] && SameId(locale, a[0], b[0]) && !IdBefore(locale, a[0], b[0])
    ensures (exists i: nat :: IdsDecide(locale, a, b, i)) <==> exists i: nat :: IdsDecide(locale, a[1..], b[1..], i)
    ensures SameIds(locale, a, b) <==> SameIds(locale, a[1..], b[1..])
  {
    assert forall j :: 0 <= j < |a| - 1 ==> a[1..][j] == a[j + 1];
    assert forall j :: 0 <= j < |b| - 1 ==> b[1..][j] == b[j + 1];
    if i: nat :| IdsDecide(locale, a, b, i) {
      assert i > 0;
      assert IdsDecide(locale, a[1..], b[1..], i - 1);
    }
    if i: nat :| IdsDecide(locale, a[1..], b[1..], i) {
      forall j | 0 <= j < i + 1
        ensures SameId(locale, a[j], b[j])
      {
        assert j > 0 ==> SameId(locale, a[1..][j - 1], b[1..][j - 1]);
      }
      assert IdsDecide(locale, a, b, i + 1);
    }
    if SameIds(locale, a[1..], b[1..]) {
      forall j | 0 <= j < |a|
        ensures SameId(locale, a[j], b[j])
      {
        assert j > 0 ==> SameId(locale, a[1..][j - 1], b[1..][j - 1]);
      }
    }
  }

  /** The first identifier that differs decides, and a list that ends first comes first. */
  lemma {:induction false} IdsByFirstDifference(locale: Locale, a: seq<string>, b: seq<string>)
    ensures CompareIds(locale, a, b) < 0 <==> exists i: nat :: IdsDecide(locale, a, b, i)
    ensures CompareIds(locale, a, b) == 0 <==> SameIds(locale, a, b)
  {
    if a == [] && b != [] {
      assert IdsDecide(locale, a, b, 0);
    } else if a != [] && b != [] {
      IdsCompared(locale, a[0], b[0]);
      if CompareId(locale, a[0], b[0]) == 0 {
        IdsByFirstDifference(locale, a[1..], b[1..]);
        IdsDecideTail(locale, a, b);
      } else if CompareId(locale, a[0], b[0]) < 0 {
        assert IdsDecide(locale, a, b, 0);
      } else {
        assert !SameId(locale, a[0], b[0]);
      }
    }
  }

  /** Section 11 of SemVer 2.0.0, by the first difference: the parts decide, then a prerelease comes before its release,
      then the prereleases' identifiers decide. */
  ghost predicate Precedes(locale: Locale, a: Version, b: Version) {
    || (exists i: nat :: PartsDecide(a.parts, b.parts, i))
    || (SameParts(a.parts, b.parts) && a.prerelease != "" && b.prerelease == "")
    || (SameParts(a.parts, b.parts) && a.prerelease != "" && b.prerelease != ""
        && exists i: nat :: IdsDecide(locale, Split(a.prerelease, '.'), Split(b.prerelease, '.'), i))
  }

  /** The comparison knows no difference. */
  ghost predicate Ties(locale: Locale, a: Version, b: Version) {
    && SameParts(a.parts, b.parts)
    && (a.prerelease == "" <==> b.prerelease == "")
    && (a.prerelease != "" ==> SameIds(locale, Split(a.prerelease, '.'), Split(b.prerelease, '.')))
  }

  /** The comparison is that order. */
  lemma CompareByFirstDifference(locale: Locale, a: Version, b: Version)
    ensures CompareParsed(locale, a, b) < 0 <==> Precedes(locale, a, b)
    ensures CompareParsed(locale, a, b) == 0 <==> Ties(locale, a, b)
  {
    PartsByFirstDifference(a.parts, b.parts);
    IdsByFirstDifference(locale, Split(a.prerelease, '.'), Split(b.prerelease, '.'));
  }

  // --------------------------------------------------- what well-formed versions parse to

  /** The number that decimal digits stand for. */
  function TensValue(s: string): int {
    if s == "" then 0 else 10 * TensValue(s[..|s| - 1]) + (s[|s| - 1] as int - 48)
  }

  /** Decimals are digits without a leading zero, and those are all decimals. */
  lemma {:induction false} DecimalValue(n: nat)
    ensures AllDigits(Decimal(n)) && Decimal(n) != "" && TensValue(Decimal(n)) == n
    ensures Decimal(n)[0] == '0' <==> n == 0
  {
    if n < 10 {
      assert ['0' + n as char][..0] == "";
    } else {
      DecimalValue(n / 10);
      assert Decimal(n)[..|Decimal(n)| - 1] == Decimal(n / 10);
    }
  }

  lemma DecimalAppend(v: nat, c: char)
    requires IsDigit(c)
    ensures v > 0 ==> Decimal(10 * v + (c as int - 48)) == Decimal(v) + [c]
    ensures Decimal(c as int - 48) == [c]
  {
    var d := c as int - 48;
    assert (10 * v + d) / 10 == v && (10 * v + d) % 10 == d;
    assert '0' + d as char == c;
  }

  lemma {:induction false} DigitsAreDecimal(s: string)
    requires s != "" && AllDigits(s) && (s[0] != '0' || s == "0")
    ensures TensValue(s) >= 0 && Decimal(TensValue(s)) == s
    ensures TensValue(s) == 0 ==> s == "0"
  {
    var front, last := s[..|s| - 1], s[|s| - 1];
    assert s == front + [last] && last in s;
    if front == "" {
      DecimalAppend(0, last);
      assert TensValue(s) == last as int - 48;
    } else {
      assert forall c :: c in front ==> c in s;
      DigitsAreDecimal(front);
      DecimalAppend(TensValue(front), last);
    }
  }

  function Decimals(numbers: seq<nat>): seq<string> {
    seq(|numbers|, i requires 0 <= i < |numbers| => Decimal(numbers[i]))
  }

  lemma {:induction false} JoinSplit(s: string, sep: char)
    ensures Join(Split(s, sep), sep) == s
  {
    if s != "" {
      JoinSplit(s[1..], sep);
      var pieces := Split(s[1..], sep);
      assert s == [s[0]] + s[1..];
      if s[0] != sep {
        assert Join([[s[0]] + pieces[0]] + pieces[1..], sep) == [s[0]] + Join(pieces, sep) by {
          assert ([[s[0]] + pieces[0]] + pieces[1..])[1..] == pieces[1..];
        }
      } else {
        assert ([""] + pieces)[1..] == pieces;
      }
    }
  }

  lemma PartOfDecimal(n: nat)
    ensures Part(Decimal(n)) == n && '.' !in Decimal(n) && '-' !in Decimal(n)
  {
    NumericIffCanonical(Decimal(n), n);
    DecimalDigits(n);
    forall c | c in Decimal(n)
      ensures c != '.' && c != '-'
    {
    }
  }

  /** Numbers joined by dots parse to themselves; what follows the first hyphen is the prerelease. */
  lemma ParseOf(numbers: seq<nat>, prerelease: string)
    requires numbers != []
    ensures Parse(Join(Decimals(numbers), '.')) == Version(numbers, "")
    ensures Parse(Join(Decimals(numbers), '.') + "-" + prerelease) == Version(numbers, prerelease)
  {
    var pieces := Decimals(numbers);
    var core := Join(pieces, '.');
    forall p | p in pieces
      ensures '.' !in p && '-' !in p
    {
      var i :| 0 <= i < |numbers| && pieces[i] == p;
      PartOfDecimal(numbers[i]);
    }
    JoinAvoids(pieces, '.', '-');
    SplitJoin(pieces, '.');
    forall i | 0 <= i < |numbers|
      ensures Part(pieces[i]) == numbers[i]
    {
      PartOfDecimal(numbers[i]);
    }
    SplitOne(core, '-');
    SplitFirst(core, prerelease, '-');
    JoinSplit(prerelease, '-');
    assert Parts(core) == numbers;
    assert ([core] + Split(prerelease, '-'))[1..] == Split(prerelease, '-');
  }

  /** So a prerelease precedes its own release. */
  lemma PrereleasePrecedes(locale: Locale, numbers: seq<nat>, prerelease: string)
    requires numbers != [] && prerelease != ""
    ensures Compare(locale, Join(Decimals(numbers), '.') + "-" + prerelease, Join(Decimals(numbers), '.')) < 0
  {
    ParseOf(numbers, prerelease);
    assert SameParts(numbers, numbers);
    CompareByFirstDifference(locale, Version(numbers, prerelease), Version(numbers, ""));
  }

  // --------------------------------------------------------------- the loops of the code

  function DropParts(parts: seq<int>, i: nat): seq<int> {
    if i <= |parts| then parts[i..] else []
  }

  /** The first loop of `compareVersions`. */
  method ComparePartLists(a: seq<int>, b: seq<int>) returns (r: int)
    ensures r == CompareParts(a, b)
  {
    for i := 0 to Max(|a|, |b|)
      invariant CompareParts(a, b) == CompareParts(DropParts(a, i), DropParts(b, i))
    {
      var aPart := if i < |a| then a[i] else 0;
      var bPart := if i < |b| then b[i] else 0;
      if aPart != bPart {
        return aPart - bPart;
      }
      assert Tail(DropParts(a, i)) == DropParts(a, i + 1) && Tail(DropParts(b, i)) == DropParts(b, i + 1);
    }
    return 0;
  }

  /** The second loop. */
  method CompareIdLists(locale: Locale, aIds: seq<string>, bIds: seq<string>) returns (r: int)
    ensures r == CompareIds(locale, aIds, bIds)
  {
    for i := 0 to Max(|aIds|, |bIds|)
      invariant i <= |aIds| && i <= |bIds|
      invariant CompareIds(locale, aIds, bIds) == CompareIds(locale, aIds[i..], bIds[i..])
    {
      if i >= |aIds| {
        return -1;
      }
      if i >= |bIds| {
        return 1;
      }
      var aNum, bNum := NumericId(aIds[i]), NumericId(bIds[i]);
      if aNum.Some? && bNum.Some? {
        if aNum != bNum {
          return aNum.value - bNum.value;
        }
      } else if aNum.Some? {
        return -1;
      } else if bNum.Some? {
        return 1;
      } else {
        var cmp := locale(aIds[i], bIds[i]);
        if cmp != 0 {
          return cmp;
        }
      }
      assert aIds[i..][1..] == aIds[i + 1..] && bIds[i..][1..] == bIds[i + 1..];
    }
    return 0;
  }

  /** `compareVersions`. */
  method CompareVersions(locale: Locale, a: string, b: string) returns (r: int)
    ensures r == Compare(locale, a, b)
    ensures r < 0 <==> Precedes(locale, Parse(a), Parse(b))
    ensures r == 0 <==> Ties(locale, Parse(a), Parse(b))
  {
    CompareByFirstDifference(locale, Parse(a), Parse(b));
    var av, bv := Parse(a), Parse(b);
    r := ComparePartLists(av.parts, bv.parts);
    if r != 0 {
      return;
    }
    if av.prerelease != "" && bv.prerelease == "" {
      return -1;
    }
    if av.prerelease == "" && bv.prerelease != "" {
      return 1;
    }
    if av.prerelease != "" && bv.prerelease != "" {
      r := CompareIdLists(locale, Split(av.prerelease, '.'), Split(bv.prerelease, '.'));
    }
  }

  // -------------------------------------------------------------------- a total preorder

  /** What holds for three arguments of a comparison that is a total preorder. */
  predicate OrdersThree(ab: int, ba: int, bc: int, cb: int, ac: int, ca: int) {
    && (ab < 0 <==> ba > 0) && (ab > 0 <==> ba < 0)
    && (bc < 0 <==> cb > 0) && (bc > 0 <==> cb < 0)
    && (ac < 0 <==> ca > 0) && (ac > 0 <==> ca < 0)
    && (ab <= 0 && bc <= 0 ==> ac <= 0)
    && (ac <= 0 && cb <= 0 ==> ab <= 0)
    && (ba <= 0 && ac <= 0 ==> bc <= 0)
    && (bc <= 0 && ca <= 0 ==> ba <= 0)
    && (ca <= 0 && ab <= 0 ==> cb <= 0)
    && (cb <= 0 && ba <= 0 ==> ca <= 0)
  }

  /** The sign of `cmp` is a total preorder. */
  ghost predicate Orders<T(!new)>(cmp: (T, T) -> int) {
    forall a, b, c :: OrdersThree(cmp(a, b), cmp(b, a), cmp(b, c), cmp(c, b), cmp(a, c), cmp(c, a))
  }

  lemma {:induction false} PartsOrder(a: seq<int>, b: seq<int>, c: seq<int>)
    ensures OrdersThree(CompareParts(a, b), CompareParts(b, a), CompareParts(b, c), CompareParts(c, b),
                        CompareParts(a, c), CompareParts(c, a))
    decreases |a| + |b| + |c|
  {
    if a != [] || b != [] || c != [] {
      PartsOrder(Tail(a), Tail(b), Tail(c));
    }
  }

  lemma IdOrder(locale: Locale, a: string, b: string, c: string)
    requires Orders(locale)
    ensures OrdersThree(CompareId(locale, a, b), CompareId(locale, b, a), CompareId(locale, b, c),
                        CompareId(locale, c, b), CompareId(locale, a, c), CompareId(locale, c, a))
  {
    assert OrdersThree(locale(a, b), locale(b, a), locale(b, c), locale(c, b), locale(a, c), locale(c, a));
  }

  lemma {:induction false} IdsOrder(locale: Locale, a: seq<string>, b: seq<string>, c: seq<string>)
    requires Orders(locale)
    ensures OrdersThree(CompareIds(locale, a, b), CompareIds(locale, b, a), CompareIds(locale, b, c),
                        CompareIds(locale, c, b), CompareIds(locale, a, c), CompareIds(locale, c, a))
  {
    var a', b', c' := if a == [] then [] else a[1..], if b == [] then [] else b[1..], if c == [] then [] else c[1..];
    if a != [] || b != [] || c != [] {
      IdsOrder(locale, a', b', c');
    }
    IdOrder(locale, if a == [] then "" else a[0], if b == [] then "" else b[0], if c == [] then "" else c[0]);
  }

  lemma PrereleaseOrder(locale: Locale, a: string, b: string, c: string)
    requires Orders(locale)
    ensures OrdersThree(ComparePrerelease(locale, a, b), ComparePrerelease(locale, b, a),
                        ComparePrerelease(locale, b, c), ComparePrerelease(locale, c, b),
                        ComparePrerelease(locale, a, c), ComparePrerelease(locale, c, a))
  {
    IdsOrder(locale, Split(a, '.'), Split(b, '.'), Split(c, '.'));
  }

  function Comparing(locale: Locale): (string, string) -> int {
    (a: string, b: string) => Compare(locale, a, b)
  }

  /** The comparison is a total preorder on all version strings, whatever they look like, if text comparison is one. */
  lemma CompareOrders(locale: Locale)
    requires Orders(locale)
    ensures Orders(Comparing(locale))
  {
    var cmp := Comparing(locale);
    forall a, b, c
      ensures OrdersThree(cmp(a, b), cmp(b, a), cmp(b, c), cmp(c, b), cmp(a, c), cmp(c, a))
    {
      CompareThree(locale, Parse(a), Parse(b), Parse(c));
    }
  }

  lemma CompareThree(locale: Locale, a: Version, b: Version, c: Version)
    requires Orders(locale)
    ensures OrdersThree(CompareParsed(locale, a, b), CompareParsed(locale, b, a), CompareParsed(locale, b, c),
                        CompareParsed(locale, c, b), CompareParsed(locale, a, c), CompareParsed(locale, c, a))
  {
    PartsOrder(a.parts, b.parts, c.parts);
    PrereleaseOrder(locale, a.prerelease, b.prerelease, c.prerelease);
  }

  // ------------------------------------------------------------- canonical numbers

  predicate AllDigits(s: string) {
    forall c :: c in s ==> IsDigit(c)
  }

  lemma {:induction false} ParseDigitsSnoc(s: string, d: char, value: nat)
    requires AllDigits(s) && IsDigit(d)
    ensures ParseDigits(s + [d], value) == 10 * ParseDigits(s, value) + DigitValue(d)
  {
    if s == "" {
      assert s + [d] == [d] && [d][1..] == "";
    } else {
      assert (s + [d])[1..] == s[1..] + [d];
      assert s[0] in s;
      ParseDigitsSnoc(s[1..], d, 10 * value + DigitValue(s[0]));
    }
  }

  lemma {:induction false} DecimalDigits(n: nat)
    ensures AllDigits(Decimal(n)) && Decimal(n) != "" && ParseDigits(Decimal(n), 0) == n
  {
    if n < 10 {
      assert ['0' + n as char][1..] == "";
    } else {
      DecimalDigits(n / 10);
      ParseDigitsSnoc(Decimal(n / 10), '0' + (n % 10) as char, 0);
    }
  }

  /** The numeric identifiers are exactly the canonical decimals. */
  lemma NumericIffCanonical(id: string, n: int)
    ensures NumericId(id) == Some(n) <==> id == Decimal(n)
  {
    var digits := Decimal(if n < 0 then -n else n);
    DecimalDigits(if n < 0 then -n else n);
    assert digits[0] in digits;
    if n < 0 {
      assert Decimal(n) == "-" + digits && ("-" + digits)[1..] == digits;
    }
    assert ParseInt(Decimal(n)) == Some(n);
  }

  // ------------------------------------------------------------- splitting and joining

  lemma {:induction false} SplitPieces(s: string, sep: char)
    ensures forall p :: p in Split(s, sep) ==> sep !in p
    ensures forall p, c :: p in Split(s, sep) && c in p ==> c in s
  {
    if s != "" {
      SplitPieces(s[1..], sep);
      var pieces := Split(s[1..], sep);
      assert s == [s[0]] + s[1..];
      assert pieces[0] in pieces;
    }
  }

  lemma {:induction false} SplitFirst(p: string, s: string, sep: char)
    requires sep !in p
    ensures Split(p + [sep] + s, sep) == [p] + Split(s, sep)
  {
    var all := p + [sep] + s;
    if p == "" {
      assert all[1..] == s;
    } else {
      assert all[1..] == p[1..] + [sep] + s;
      assert p[0] in p;
      SplitFirst(p[1..], s, sep);
      assert [p[0]] + p[1..] == p;
    }
  }

  lemma {:induction false} SplitOne(p: string, sep: char)
    requires sep !in p
    ensures Split(p, sep) == [p]
  {
    if p != "" {
      assert p[0] in p;
      SplitOne(p[1..], sep);
      assert [p[0]] + p[1..] == p;
    }
  }

  /** Splitting undoes joining when no piece contains the separator. */
  lemma {:induction false} SplitJoin(pieces: seq<string>, sep: char)
    requires pieces != [] && forall p :: p in pieces ==> sep !in p
    ensures Split(Join(pieces, sep), sep) == pieces
  {
    if |pieces| == 1 {
      SplitOne(pieces[0], sep);
    } else {
      SplitFirst(pieces[0], Join(pieces[1..], sep), sep);
      SplitJoin(pieces[1..], sep);
    }
  }

  lemma {:induction false} JoinAvoids(pieces: seq<string>, sep: char, c: char)
    requires c != sep && forall p :: p in pieces ==> c !in p
    ensures c !in Join(pieces, sep)
  {
    if |pieces| > 1 {
      JoinAvoids(pieces[1..], sep, c);
    }
  }

  // ------------------------------------------------------------- the latest version

  predicate IsStable(version: string) {
    '-' !in version
  }

  predicate NotAfter(locale: Locale, a: string, b: string) {
    Compare(locale, a, b) <= 0
  }

  function Ordering(locale: Locale): (string, string) -> bool {
    (a: string, b: string) => NotAfter(locale, a, b)
  }

  /** The versions that may be the latest: the stable ones, or all if there is none. */
  function Candidates(versions: seq<string>): seq<string> {
    var stable := Filter(IsStable, versions);
    if |stable| > 0 then stable else versions
  }

  const FALLBACK := "0.0.0"

  /** The last of the sorted candidates; the fallback stands in for an empty list and for an empty version string. */
  function LastSorted(locale: Locale, candidates: seq<string>): string {
    var sorted := Sort(Ordering(locale), candidates);
    if |sorted| == 0 || sorted[|sorted| - 1] == "" then FALLBACK else sorted[|sorted| - 1]
  }

  /** The selection in `latestVersionInPackument`: a maximum of the candidates, stable if any version is. */
  method LatestVersion(locale: Locale, versions: seq<string>) returns (latest: string)
    requires Orders(locale)
    ensures forall v :: v in Candidates(versions) ==> NotAfter(locale, v, latest)
    ensures latest in Candidates(versions) || (latest == "0.0.0" && (versions == [] || "" in Candidates(versions)))
    ensures (exists v :: v in versions && IsStable(v)) ==> IsStable(latest)
  {
    var stableVersions := Filter(IsStable, versions);
    var candidates := if |stableVersions| > 0 then stableVersions else versions;
    LatestIsMaximum(locale, candidates);
    StableIffFound(versions);
    latest := LastSorted(locale, candidates);
  }

  lemma OrderingIsPreorder(locale: Locale)
    requires Orders(locale)
    ensures TotalPreorder(Ordering(locale))
  {
    CompareOrders(locale);
    var cmp := Comparing(locale);
    forall a, b
      ensures Ordering(locale)(a, b) || Ordering(locale)(b, a)
    {
      assert OrdersThree(cmp(a, b), cmp(b, a), cmp(b, b), cmp(b, b), cmp(a, b), cmp(b, a));
    }
    forall a, b, c | Ordering(locale)(a, b) && Ordering(locale)(b, c)
      ensures Ordering(locale)(a, c)
    {
      assert OrdersThree(cmp(a, b), cmp(b, a), cmp(b, c), cmp(c, b), cmp(a, c), cmp(c, a));
    }
  }

  lemma FallbackParts()
    ensures Parse("") == Version([0], "") && Parse(FALLBACK) == Version([0, 0, 0], "")
  {
    assert Split("", '-') == [""] && Split("", '.') == [""];
    SplitOne(FALLBACK, '-');
    SplitFirst("0", "0.0", '.');
    SplitFirst("0", "0", '.');
    SplitOne("0", '.');
    assert "0" + "." + "0.0" == FALLBACK && "0" + "." + "0" == "0.0";
    NumericIffCanonical("0", 0);
  }

  /** The empty version string and the fallback compare alike to anything. */
  lemma EmptyIsFallback(locale: Locale, v: string)
    ensures Compare(locale, v, "") == Compare(locale, v, FALLBACK)
  {
    FallbackParts();
    PaddingIsZero(Parse(v).parts);
  }

  lemma PaddingIsZero(parts: seq<int>)
    ensures CompareParts(parts, [0]) == CompareParts(parts, [0, 0, 0])
  {
    assert Zeros(1) == [0] && Zeros(3) == [0, 0, 0];
    ZerosAreNothing(parts, 1);
    ZerosAreNothing(parts, 3);
  }

  function Zeros(n: nat): seq<int> {
    seq(n, i => 0)
  }

  lemma {:induction false} ZerosAreNothing(parts: seq<int>, n: nat)
    ensures CompareParts(parts, Zeros(n)) == CompareParts(parts, [])
    decreases |parts| + n
  {
    if parts != [] || n > 0 {
      var m := if n == 0 then 0 else n - 1;
      assert Tail(Zeros(n)) == Zeros(m);
      ZerosAreNothing(Tail(parts), m);
    }
  }

  lemma LatestIsMaximum(locale: Locale, candidates: seq<string>)
    requires Orders(locale)
    ensures var last := LastSorted(locale, candidates);
            && (forall v :: v in candidates ==> NotAfter(locale, v, last))
            && (last in candidates || (last == FALLBACK && (candidates == [] || "" in candidates)))
  {
    var sorted := Sort(Ordering(locale), candidates);
    SortElements(Ordering(locale), candidates);
    if sorted != [] {
      var last := sorted[|sorted| - 1];
      assert last in sorted;
      forall v | v in candidates
        ensures NotAfter(locale, v, LastSorted(locale, candidates))
      {
        SortedBelowLast(locale, candidates, v);
        EmptyIsFallback(locale, v);
      }
    }
  }

  lemma SortedBelowLast(locale: Locale, candidates: seq<string>, v: string)
    requires Orders(locale) && v in candidates
    ensures var sorted := Sort(Ordering(locale), candidates);
            sorted != [] && NotAfter(locale, v, sorted[|sorted| - 1])
  {
    OrderingIsPreorder(locale);
    SortLast(Ordering(locale), candidates, v);
  }

  lemma StableIffFound(versions: seq<string>)
    ensures forall v :: v in Filter(IsStable, versions) <==> v in versions && IsStable(v)
    ensures (exists v :: v in versions && IsStable(v)) <==> |Filter(IsStable, versions)| > 0
  {
    forall v
      ensures v in Filter(IsStable, versions) <==> v in versions && IsStable(v)
    {
      FilterMembers(IsStable, versions, v);
    }
    var stable := Filter(IsStable, versions);
    if |stable| > 0 {
      assert stable[0] in stable;
    }
  }

  // ------------------------------------------------------------- the gate

  function MajorMinor(version: string): string {
    var pieces := Split(Split(version, '-')[0], '.');
    Join(pieces[..Min(2, |pieces|)], '.')
  }

  predicate IsMandatoryUpgrade(locale: Locale, current: string, latest: string) {
    Compare(locale, MajorMinor(current), MajorMinor(latest)) < 0
  }

  datatype Verdict = UpToDate | Blocked | Warned

  /** `checkCliVersion`, with the latest version already fetched. */
  method CheckCliVersion(locale: Locale, current: string, latest: string) returns (verdict: Verdict)
    ensures verdict == Blocked <==> IsMandatoryUpgrade(locale, current, latest)
    ensures verdict == UpToDate <==> Compare(locale, current, latest) >= 0
    ensures verdict == UpToDate <==> !Precedes(locale, Parse(current), Parse(latest))
    ensures verdict == Blocked <==> exists i: nat :: i < 2 && PartsDecide(Parse(current).parts, Parse(latest).parts, i)
  {
    BlockedByFirstParts(locale, current, latest);
    CompareByFirstDifference(locale, Parse(current), Parse(latest));
    var order := CompareVersions(locale, current, latest);
    MandatoryMeansOlder(locale, current, latest);
    if order >= 0 {
      return UpToDate;
    }
    var mandatory := CompareVersions(locale, MajorMinor(current), MajorMinor(latest));
    return if mandatory < 0 then Blocked else Warned;
  }

  lemma MajorMinorParts(version: string)
    ensures Parse(MajorMinor(version)).prerelease == ""
    ensures Parse(MajorMinor(version)).parts == Take(Parse(version).parts, 2)
  {
    var core := Split(version, '-')[0];
    var pieces := Split(core, '.');
    var front := pieces[..Min(2, |pieces|)];
    SplitPieces(version, '-');
    SplitPieces(core, '.');
    assert core in Split(version, '-');
    JoinAvoids(front, '.', '-');
    SplitOne(Join(front, '.'), '-');
    SplitJoin(front, '.');
  }

  function Take(parts: seq<int>, n: nat): seq<int> {
    parts[..Min(n, |parts|)]
  }

  lemma TakeTail(parts: seq<int>, n: nat)
    requires n > 0
    ensures Head(Take(parts, n)) == Head(parts) && Tail(Take(parts, n)) == Take(Tail(parts), n - 1)
  {
    if parts != [] {
      assert parts[..Min(n, |parts|)][1..] == parts[1..][..Min(n - 1, |parts| - 1)];
    }
  }

  /** A difference in the first parts decides. */
  lemma {:induction false} PrefixDecides(a: seq<int>, b: seq<int>, n: nat)
    ensures var r := CompareParts(Take(a, n), Take(b, n));
            r != 0 ==> r == CompareParts(a, b)
    decreases n
  {
    if n > 0 {
      PrefixDecides(Tail(a), Tail(b), n - 1);
      TakeTail(a, n);
      TakeTail(b, n);
    }
  }

  /** A mandatory upgrade is an upgrade: the current version is older than the latest one. */
  lemma MandatoryMeansOlder(locale: Locale, current: string, latest: string)
    ensures IsMandatoryUpgrade(locale, current, latest) ==> Compare(locale, current, latest) < 0
  {
    MajorMinorParts(current);
    MajorMinorParts(latest);
    PrefixDecides(Parse(current).parts, Parse(latest).parts, 2);
  }

  /** An upgrade is mandatory exactly if the major or the minor part is the first that differs. */
  lemma BlockedByFirstParts(locale: Locale, current: string, latest: string)
    ensures IsMandatoryUpgrade(locale, current, latest)
       <==> exists i: nat :: i < 2 && PartsDecide(Parse(current).parts, Parse(latest).parts, i)
  {
    var a, b := Parse(current).parts, Parse(latest).parts;
    MajorMinorParts(current);
    MajorMinorParts(latest);
    PartsByFirstDifference(Take(a, 2), Take(b, 2));
    forall j: nat
      ensures PartAt(Take(a, 2), j) == if j < 2 then PartAt(a, j) else 0
      ensures PartAt(Take(b, 2), j) == if j < 2 then PartAt(b, j) else 0
    {
    }
    forall i: nat
      ensures PartsDecide(Take(a, 2), Take(b, 2), i) <==> i < 2 && PartsDecide(a, b, i)
    {
    }
  }
}
