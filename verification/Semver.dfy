/** Versions as the updater reads and compares them, against section 11 of Semantic Versioning 2.0.0. */
module Semver {
  import opened Wrappers
  import opened Decimal
  import opened Text
  import Lexicographic

  /** A number too large for a JavaScript number is read as infinity. */
  datatype Identifier = Numeric(value: nat) | Infinite | Alphanumeric(text: string)

  /** A release and its prerelease identifiers, if any; build metadata does not take part. */
  datatype Version = Version(major: nat, minor: nat, patch: nat, prerelease: Option<seq<Identifier>>)

  const MAX_SAFE_INTEGER: nat := 9007199254740991

  // ----- reading -----

  predicate IsLetter(c: char) {
    'a' <= c <= 'z' || 'A' <= c <= 'Z'
  }

  /** The characters of prerelease identifiers and build metadata, and the dots between identifiers. */
  predicate IsTagText(s: string) {
    s != "" && forall i | 0 <= i < |s| :: IsDigit(s[i]) || IsLetter(s[i]) || s[i] == '.' || s[i] == '-'
  }

  function NumberOf(s: string): Option<nat> {
    if s != "" && AllDigits(s) then Some(Parse(s)) else None
  }

  // JavaScript numbers have 53 significant bits; ties are rounded to even.

  const SIGNIFICANT: nat := 9007199254740992

  const LARGEST_EXCESS: nat := 971

  function Power(exponent: nat): (r: nat)
    ensures r > 0
  {
    if exponent == 0 then 1 else 2 * Power(exponent - 1)
  }

  /** How often `n` is halved until it fits into 53 bits. */
  function Excess(n: nat): nat {
    if n < SIGNIFICANT then 0 else 1 + Excess(n / 2)
  }

  /** `n` in units of `unit`, rounded to the nearest and from the middle to the even one. */
  function Nearest(n: nat, unit: nat): nat
    requires unit > 0
  {
    var quotient, rest := n / unit, n % unit;
    if 2 * rest > unit || (2 * rest == unit && quotient % 2 == 1) then quotient + 1 else quotient
  }

  /** The identifier that `Number` makes of the digits of `n`. */
  function NumberAsRead(n: nat): Identifier {
    var excess := Excess(n);
    var nearest := Nearest(n, Power(excess));
    if excess > LARGEST_EXCESS || (excess == LARGEST_EXCESS && nearest == SIGNIFICANT) then Infinite
    else Numeric(nearest * Power(excess))
  }

  /** Safe integers are read exactly. */
  lemma SafeIsExact(n: nat)
    requires n <= MAX_SAFE_INTEGER
    ensures NumberAsRead(n) == Numeric(n)
  {
    assert Excess(n) == 0 && Power(0) == 1;
    assert Nearest(n, 1) == n;
  }

  /** The first integers that are not safe are read alike. */
  lemma UnsafeReadAlike()
    ensures NumberAsRead(MAX_SAFE_INTEGER + 1) == NumberAsRead(MAX_SAFE_INTEGER + 2)
  {
    assert Excess(SIGNIFICANT) == 1 && Excess(SIGNIFICANT + 1) == 1;
    assert Power(1) == 2;
  }

  function IdentifierOf(s: string): Identifier {
    if NumberOf(s).Some? then NumberAsRead(NumberOf(s).value) else Alphanumeric(s)
  }

  /** The identifier as the standard means it. */
  function ExactIdentifier(s: string): Identifier {
    if NumberOf(s).Some? then Numeric(NumberOf(s).value) else Alphanumeric(s)
  }

  /** Every numeric identifier is a safe integer. */
  predicate SafeNumbers(parts: seq<string>) {
    forall part | part in parts :: NumberOf(part).Some? ==> NumberOf(part).value <= MAX_SAFE_INTEGER
  }

  function Identifiers(parts: seq<string>): (ids: seq<Identifier>)
    ensures |ids| == |parts|
  {
    seq(|parts|, i requires 0 <= i < |parts| => IdentifierOf(parts[i]))
  }

  function ExactIdentifiers(parts: seq<string>): (ids: seq<Identifier>)
    ensures |ids| == |parts|
  {
    seq(|parts|, i requires 0 <= i < |parts| => ExactIdentifier(parts[i]))
  }

  /** Identifiers with safe numbers are read as the standard means them. */
  lemma SafeIdentifiersExact(parts: seq<string>)
    requires SafeNumbers(parts)
    ensures Identifiers(parts) == ExactIdentifiers(parts)
  {
    forall i | 0 <= i < |parts| ensures Identifiers(parts)[i] == ExactIdentifier(parts[i]) {
      assert parts[i] in parts;
      if NumberOf(parts[i]).Some? {
        SafeIsExact(NumberOf(parts[i]).value);
      }
    }
  }

  function Release(s: string): Option<(nat, nat, nat)> {
    var parts := Split(s, '.');
    if |parts| == 3 && NumberOf(parts[0]).Some? && NumberOf(parts[1]).Some? && NumberOf(parts[2]).Some?
      then Some((NumberOf(parts[0]).value, NumberOf(parts[1]).value, NumberOf(parts[2]).value))
      else None
  }

  /** The numbers of a version's release and the texts of its prerelease identifiers, if any. */
  datatype Texts = Texts(major: nat, minor: nat, patch: nat, prerelease: Option<seq<string>>)

  /** `major.minor.patch`, then `-` and a prerelease tag or not, then `+` and build metadata or not. */
  function ReadTexts(version: string): Option<Texts> {
    var build := Cut(version, '+');
    var tag := Cut(build.0, '-');
    var release := Release(tag.0);
    if build.1.Some? && !IsTagText(build.1.value) then None
    else if tag.1.Some? && !IsTagText(tag.1.value) then None
    else if release == None then None
    else
      var (major, minor, patch) := release.value;
      if major > MAX_SAFE_INTEGER || minor > MAX_SAFE_INTEGER || patch > MAX_SAFE_INTEGER then None
      else Some(Texts(major, minor, patch, if tag.1 == None then None else Some(Split(tag.1.value, '.'))))
  }

  /** The version that the program makes of the texts. */
  function AsRead(t: Texts): Version {
    Version(t.major, t.minor, t.patch, if t.prerelease == None then None else Some(Identifiers(t.prerelease.value)))
  }

  /** The version that the standard means by them. */
  function AsMeant(t: Texts): Version {
    Version(t.major, t.minor, t.patch, if t.prerelease == None then None else Some(ExactIdentifiers(t.prerelease.value)))
  }

  function ParseTrimmed(version: string): Option<Version> {
    var texts := ReadTexts(version);
    if texts == None then None else Some(AsRead(texts.value))
  }

  function ParseVersion(version: string): Option<Version> {
    ParseTrimmed(Trim(version))
  }

  function ExactVersion(version: string): Option<Version> {
    var texts := ReadTexts(Trim(version));
    if texts == None then None else Some(AsMeant(texts.value))
  }

  /** Every number in the version is a safe integer. */
  predicate SafeVersion(version: string) {
    var texts := ReadTexts(Trim(version));
    texts.Some? && texts.value.prerelease.Some? ==> SafeNumbers(texts.value.prerelease.value)
  }

  lemma SafeVersionExact(version: string)
    requires SafeVersion(version)
    ensures ParseVersion(version) == ExactVersion(version)
  {
    var texts := ReadTexts(Trim(version));
    if texts.Some? && texts.value.prerelease.Some? {
      SafeIdentifiersExact(texts.value.prerelease.value);
    }
  }

  predicate IsNumeral(s: string) {
    s != "" && AllDigits(s)
  }

  predicate TagCharacter(c: char) {
    || '0' <= c <= '9' || 'A' <= c <= 'Z' || 'a' <= c <= 'z' || c == '.' || c == '-'
  }

  lemma TagCharacters(s: string)
    ensures IsTagText(s) <==> s != "" && forall c | c in s :: TagCharacter(c)
  {
    if s != "" && forall c | c in s :: TagCharacter(c) {
      assert forall i | 0 <= i < |s| :: s[i] in s;
    }
  }

  /** The parts of a version text, as the pattern of the program takes them apart. */
  ghost predicate Spelled(s: string, release: seq<string>, tag: Option<string>, build: Option<string>) {
    && |release| == 3 && IsNumeral(release[0]) && IsNumeral(release[1]) && IsNumeral(release[2])
    && (tag.Some? ==> tag.value != "" && forall c | c in tag.value :: TagCharacter(c))
    && (build.Some? ==> build.value != "" && forall c | c in build.value :: TagCharacter(c))
    && s == Join(release, '.') + Tail('-', tag) + Tail('+', build)
  }

  /** What those parts are read as; release numbers that are not safe integers make no version. */
  function TextsOf(release: seq<string>, tag: Option<string>): Option<Texts>
    requires |release| == 3 && AllDigits(release[0]) && AllDigits(release[1]) && AllDigits(release[2])
  {
    var major, minor, patch := Parse(release[0]), Parse(release[1]), Parse(release[2]);
    if major > MAX_SAFE_INTEGER || minor > MAX_SAFE_INTEGER || patch > MAX_SAFE_INTEGER then None
    else Some(Texts(major, minor, patch, if tag == None then None else Some(Split(tag.value, '.'))))
  }

  function IdentifierText(id: Identifier): string {
    match id
    case Numeric(value) => Print(value)
    case Infinite => "Infinity"
    case Alphanumeric(text) => text
  }

  function IdentifierTexts(ids: seq<Identifier>): seq<string> {
    seq(|ids|, i requires 0 <= i < |ids| => IdentifierText(ids[i]))
  }

  function VersionText(v: Version): string {
    Join([Print(v.major), Print(v.minor), Print(v.patch)], '.')
      + if v.prerelease == None then "" else "-" + Join(IdentifierTexts(v.prerelease.value), '.')
  }

  ghost predicate WritableIdentifier(id: Identifier) {
    match id
    case Numeric(value) => value <= MAX_SAFE_INTEGER
    case Infinite => false
    case Alphanumeric(text) => IsTagText(text) && '.' !in text && !AllDigits(text)
  }

  /** What can be written down as a version: safe numbers, and identifiers that are not numbers in disguise. */
  ghost predicate Writable(v: Version) {
    && v.major <= MAX_SAFE_INTEGER && v.minor <= MAX_SAFE_INTEGER && v.patch <= MAX_SAFE_INTEGER
    && (v.prerelease.Some? ==>
          && v.prerelease.value != []
          && forall i | 0 <= i < |v.prerelease.value| :: WritableIdentifier(v.prerelease.value[i]))
  }

  lemma IdentifierReadBack(id: Identifier)
    requires WritableIdentifier(id)
    ensures IdentifierOf(IdentifierText(id)) == id
    ensures IsTagText(IdentifierText(id)) && '.' !in IdentifierText(id)
  {
    if id.Numeric? {
      PrintCanonical(id.value);
      ParsePrint(id.value);
      SafeIsExact(id.value);
    }
  }

  lemma {:induction false} JoinIsTagText(parts: seq<string>)
    requires parts != [] && forall i | 0 <= i < |parts| :: IsTagText(parts[i])
    ensures IsTagText(Join(parts, '.'))
  {
    if |parts| > 1 {
      JoinIsTagText(parts[1..]);
    }
  }

  /** The text of a release: digits and dots. */
  predicate IsPlain(s: string) {
    s != "" && forall i | 0 <= i < |s| :: IsDigit(s[i]) || s[i] == '.'
  }

  lemma PlainParts(first: string, second: string, third: string)
    requires IsNumeral(first) && IsNumeral(second) && IsNumeral(third)
    ensures IsPlain(first + ['.'] + (second + ['.'] + third))
  {
  }

  lemma TagReadBack(ids: seq<Identifier>)
    requires ids != []
    requires forall i | 0 <= i < |ids| :: WritableIdentifier(ids[i])
    ensures
      var text := Join(IdentifierTexts(ids), '.');
      IsTagText(text) && Identifiers(Split(text, '.')) == ids
  {
    var texts := IdentifierTexts(ids);
    forall i | 0 <= i < |ids|
      ensures IdentifierOf(texts[i]) == ids[i] && IsTagText(texts[i]) && '.' !in texts[i]
    {
      IdentifierReadBack(ids[i]);
    }
    JoinIsTagText(texts);
    SplitJoin(texts, '.');
  }

  lemma TagTextEnds(s: string)
    requires IsTagText(s)
    ensures !IsSpace(s[0]) && !IsSpace(s[|s| - 1]) && '+' !in s
  {
  }

  lemma JoinedNumerals(release: seq<string>)
    requires |release| == 3 && IsNumeral(release[0]) && IsNumeral(release[1]) && IsNumeral(release[2])
    ensures IsPlain(Join(release, '.')) && Split(Join(release, '.'), '.') == release
  {
    assert release == [release[0], release[1], release[2]];
    JoinThree(release[0], release[1], release[2], '.');
    SplitJoin(release, '.');
    PlainParts(release[0], release[1], release[2]);
  }

  lemma PlainIsTagText(s: string)
    requires IsPlain(s)
    ensures IsTagText(s) && '-' !in s && '+' !in s
  {
  }

  /** A text of that pattern is read by its parts, */
  lemma ReadSpelled(s: string, release: seq<string>, tag: Option<string>, build: Option<string>)
    requires Spelled(s, release, tag, build)
    ensures ReadTexts(s) == TextsOf(release, tag)
  {
    var core := Join(release, '.');
    JoinedNumerals(release);
    PlainIsTagText(core);
    assert '+' !in core + Tail('-', tag) by {
      if tag.Some? {
        TagCharacters(tag.value);
        TagTextEnds(tag.value);
      }
    }
    if build.Some? {
      TagCharacters(build.value);
    }
    if tag.Some? {
      TagCharacters(tag.value);
    }
    CutTail(core + Tail('-', tag), '+', build);
    CutTail(core, '-', tag);
  }

  /** and nothing else is a version. */
  lemma ReadIsSpelled(s: string)
    requires ReadTexts(s).Some?
    ensures exists release, tag, build :: Spelled(s, release, tag, build)
  {
    var build := Cut(s, '+');
    var tag := Cut(build.0, '-');
    var release := Split(tag.0, '.');
    TailBack(s, '+');
    TailBack(build.0, '-');
    JoinSplit(tag.0, '.');
    if tag.1.Some? {
      TagCharacters(tag.1.value);
    }
    if build.1.Some? {
      TagCharacters(build.1.value);
    }
    assert Spelled(s, release, tag.1, build.1);
  }

  lemma VersionSpelled(v: Version)
    requires Writable(v)
    ensures
      var release := [Print(v.major), Print(v.minor), Print(v.patch)];
      var tag := if v.prerelease == None then None else Some(Join(IdentifierTexts(v.prerelease.value), '.'));
      Spelled(VersionText(v), release, tag, None) && TextsOf(release, tag).Some? && AsRead(TextsOf(release, tag).value) == v
  {
    var release := [Print(v.major), Print(v.minor), Print(v.patch)];
    var tag := if v.prerelease == None then None else Some(Join(IdentifierTexts(v.prerelease.value), '.'));
    ReleasePrinted(v.major, v.minor, v.patch);
    if v.prerelease.Some? {
      TagReadBack(v.prerelease.value);
      TagCharacters(tag.value);
    }
    assert VersionText(v) == Join(release, '.') + Tail('-', tag) + Tail('+', None);
    assert Spelled(VersionText(v), release, tag, None);
    assert TextsOf(release, tag).Some?;
    assert AsRead(TextsOf(release, tag).value) == v;
  }

  lemma ReleasePrinted(major: nat, minor: nat, patch: nat)
    ensures IsNumeral(Print(major)) && IsNumeral(Print(minor)) && IsNumeral(Print(patch))
    ensures Parse(Print(major)) == major && Parse(Print(minor)) == minor && Parse(Print(patch)) == patch
  {
    PrintCanonical(major);
    PrintCanonical(minor);
    PrintCanonical(patch);
    ParsePrint(major);
    ParsePrint(minor);
    ParsePrint(patch);
  }

  /** A version that is written out is read back as it was. */
  lemma VersionReadBack(v: Version)
    requires Writable(v)
    ensures ParseVersion(VersionText(v)) == Some(v)
  {
    var release := [Print(v.major), Print(v.minor), Print(v.patch)];
    var tag := if v.prerelease == None then None else Some(Join(IdentifierTexts(v.prerelease.value), '.'));
    var text := VersionText(v);
    VersionSpelled(v);
    assert ParseTrimmed(text) == Some(v) by {
      ReadSpelled(text, release, tag, None);
    }
    assert Trim(text) == text by {
      VersionTextEnds(v, release, tag);
      TrimNothing(text);
    }
  }

  lemma VersionTextEnds(v: Version, release: seq<string>, tag: Option<string>)
    requires Spelled(VersionText(v), release, tag, None)
    ensures var text := VersionText(v); text != "" && !IsSpace(text[0]) && !IsSpace(text[|text| - 1])
  {
    JoinedNumerals(release);
    PlainIsTagText(Join(release, '.'));
    TagTextEnds(Join(release, '.'));
    if tag.Some? {
      TagCharacters(tag.value);
      TagTextEnds(tag.value);
    }
  }

  /** Build metadata makes no difference to what is read. */
  lemma BuildMetadataIgnored(s: string, release: seq<string>, tag: Option<string>, build: Option<string>, other: Option<string>, t: string)
    requires Spelled(s, release, tag, build) && Spelled(t, release, tag, other)
    ensures ReadTexts(s) == ReadTexts(t)
  {
    ReadSpelled(s, release, tag, build);
    ReadSpelled(t, release, tag, other);
  }

  // ----- the standard -----

  /** Sections 11.4.1 to 11.4.3: numbers by value, texts in ASCII order, numbers before texts. */
  ghost predicate IdentifierPrecedes(a: Identifier, b: Identifier) {
    match (a, b)
    case (Numeric(m), Numeric(n)) => m < n
    case (Alphanumeric(s), Alphanumeric(t)) => TextPrecedes(s, t)
    case (Numeric(_), _) => true
    case (Infinite, Alphanumeric(_)) => true
    case _ => false
  }

  /** Section 11.4: the first difference decides, and a longer list comes after its beginning. */
  ghost predicate ListPrecedes(a: seq<Identifier>, b: seq<Identifier>) {
    Lexicographic.Precedes(a, b, (x: Identifier, y: Identifier) => IdentifierPrecedes(x, y))
  }

  /** Section 11.3: a prerelease comes before its release. */
  ghost predicate PrereleasePrecedes(a: Option<seq<Identifier>>, b: Option<seq<Identifier>>) {
    if a == None then false else if b == None then true else ListPrecedes(a.value, b.value)
  }

  /** Section 11.2: major, minor and patch versions are compared in this order. */
  ghost predicate VersionPrecedes(a: Version, b: Version) {
    || a.major < b.major
    || (a.major == b.major && a.minor < b.minor)
    || (a.major == b.major && a.minor == b.minor && a.patch < b.patch)
    || (a.major == b.major && a.minor == b.minor && a.patch == b.patch && PrereleasePrecedes(a.prerelease, b.prerelease))
  }

  lemma IdentifiersTotal(a: Identifier, b: Identifier)
    ensures IdentifierPrecedes(a, b) || IdentifierPrecedes(b, a) || a == b
    ensures !IdentifierPrecedes(a, a)
  {
    CharsOrdered();
    if a.Alphanumeric? && b.Alphanumeric? {
      Lexicographic.Total(a.text, b.text, (x: char, y: char) => x < y);
    }
    if IdentifierPrecedes(a, a) && a.Alphanumeric? {
      Lexicographic.Asymmetric(a.text, a.text, (x: char, y: char) => x < y);
    }
  }

  lemma IdentifiersTransitive(a: Identifier, b: Identifier, c: Identifier)
    requires IdentifierPrecedes(a, b) && IdentifierPrecedes(b, c)
    ensures IdentifierPrecedes(a, c)
  {
    CharsOrdered();
    if a.Alphanumeric? && b.Alphanumeric? && c.Alphanumeric? {
      Lexicographic.Transitive(a.text, b.text, c.text, (x: char, y: char) => x < y);
    }
  }

  lemma IdentifiersOrdered()
    ensures Lexicographic.StrictTotal((x: Identifier, y: Identifier) => IdentifierPrecedes(x, y))
  {
    var less := (x: Identifier, y: Identifier) => IdentifierPrecedes(x, y);
    forall x, y ensures !less(x, x) && (less(x, y) || less(y, x) || x == y) {
      IdentifiersTotal(x, y);
    }
    forall x, y, z | less(x, y) && less(y, z) ensures less(x, z) {
      IdentifiersTransitive(x, y, z);
    }
  }

  /** Precedence is a strict total order of versions read without their build metadata. */
  lemma PrecedenceTotal(a: Version, b: Version)
    ensures VersionPrecedes(a, b) || VersionPrecedes(b, a) || a == b
    ensures !(VersionPrecedes(a, b) && VersionPrecedes(b, a)) && !VersionPrecedes(a, a)
  {
    IdentifiersOrdered();
    var less := (x: Identifier, y: Identifier) => IdentifierPrecedes(x, y);
    if a.prerelease.Some? && b.prerelease.Some? {
      Lexicographic.Total(a.prerelease.value, b.prerelease.value, less);
      if ListPrecedes(a.prerelease.value, b.prerelease.value) {
        Lexicographic.Asymmetric(a.prerelease.value, b.prerelease.value, less);
      }
    }
    if a.prerelease.Some? && ListPrecedes(a.prerelease.value, a.prerelease.value) {
      Lexicographic.Asymmetric(a.prerelease.value, a.prerelease.value, less);
    }
  }

  lemma PrecedenceTransitive(a: Version, b: Version, c: Version)
    requires VersionPrecedes(a, b) && VersionPrecedes(b, c)
    ensures VersionPrecedes(a, c)
  {
    if a.prerelease.Some? && b.prerelease.Some? && c.prerelease.Some?
      && ListPrecedes(a.prerelease.value, b.prerelease.value) && ListPrecedes(b.prerelease.value, c.prerelease.value)
    {
      IdentifiersOrdered();
      Lexicographic.Transitive(a.prerelease.value, b.prerelease.value, c.prerelease.value,
        (x: Identifier, y: Identifier) => IdentifierPrecedes(x, y));
    }
  }

  // ----- rounding keeps order -----

  lemma {:induction false} ExcessBounds(n: nat)
    ensures n < SIGNIFICANT * Power(Excess(n))
    ensures Excess(n) > 0 ==> n >= SIGNIFICANT / 2 * Power(Excess(n))
  {
    if n >= SIGNIFICANT {
      ExcessBounds(n / 2);
      var unit := Power(Excess(n / 2));
      assert Power(Excess(n)) == 2 * unit;
      assert n / 2 + 1 <= SIGNIFICANT * unit;
      if Excess(n / 2) == 0 {
        assert unit == 1;
      } else {
        assert n / 2 >= SIGNIFICANT / 2 * unit;
      }
    }
  }

  lemma {:induction false} ExcessGrows(m: nat, n: nat)
    requires m <= n
    ensures Excess(m) <= Excess(n)
  {
    if m >= SIGNIFICANT {
      ExcessGrows(m / 2, n / 2);
    }
  }

  lemma {:induction false} PowerGrows(low: nat, high: nat)
    requires low < high
    ensures Power(high) >= 2 * Power(low)
  {
    if low < high - 1 {
      PowerGrows(low, high - 1);
    }
  }

  lemma ProductsApart(a: int, b: nat, unit: nat)
    ensures a < b ==> (a + 1) * unit <= b * unit
  {
    if a < b {
      assert (b - (a + 1)) * unit >= 0;
    }
  }

  lemma QuotientGrows(m: nat, n: nat, unit: nat)
    requires m <= n && unit > 0
    ensures m / unit <= n / unit
    ensures m / unit == n / unit ==> m % unit <= n % unit
  {
    ProductsApart(n / unit, m / unit, unit);
  }

  lemma NearestGrows(m: nat, n: nat, unit: nat)
    requires m <= n && unit > 0
    ensures Nearest(m, unit) <= Nearest(n, unit)
  {
    QuotientGrows(m, n, unit);
  }

  lemma NearestBounds(n: nat)
    ensures Nearest(n, Power(Excess(n))) <= SIGNIFICANT
    ensures Excess(n) > 0 ==> Nearest(n, Power(Excess(n))) >= SIGNIFICANT / 2
  {
    var unit := Power(Excess(n));
    ExcessBounds(n);
    BetweenMultiples(n, unit, 0, SIGNIFICANT);
    if Excess(n) > 0 {
      BetweenMultiples(n, unit, SIGNIFICANT / 2, SIGNIFICANT);
    }
  }

  lemma BetweenMultiples(n: nat, unit: nat, low: nat, high: nat)
    requires unit > 0 && low * unit <= n < high * unit
    ensures low <= n / unit < high
  {
    ProductsApart(n / unit, low, unit);
    ProductsApart(n / unit, high, unit);
    ProductsApart(high - 1, n / unit, unit);
  }

  lemma ProductsGrow(a: nat, b: nat, unit: nat)
    requires a <= b
    ensures a * unit <= b * unit
  {
  }

  lemma {:induction false} PowerAdds(a: nat, b: nat)
    ensures Power(a + b) == Power(a) * Power(b)
    decreases b
  {
    if b > 0 {
      PowerAdds(a, b - 1);
    }
  }

  lemma PowerProduct(a: nat, b: nat, x: nat, y: nat, product: nat)
    requires Power(a) == x && Power(b) == y && product == x * y
    ensures Power(a + b) == product
  {
    PowerAdds(a, b);
  }

  lemma PowerOfSignificant()
    ensures Power(53) == SIGNIFICANT
  {
    assert Power(1) == 2;
    PowerProduct(1, 1, 2, 2, 4);
    PowerProduct(2, 1, 4, 2, 8);
    PowerProduct(2, 3, 4, 8, 32);
    PowerProduct(5, 5, 32, 32, 1024);
    PowerProduct(10, 10, 1024, 1024, 1048576);
    PowerProduct(20, 20, 1048576, 1048576, 1099511627776);
    PowerProduct(40, 10, 1099511627776, 1024, 1125899906842624);
    PowerProduct(50, 3, 1125899906842624, 8, 9007199254740992);
  }

  /** How often a number is halved is told by the powers of two that it lies between. */
  lemma ExcessAtLeast(n: nat, excess: nat)
    ensures Excess(n) >= excess + 1 <==> n >= SIGNIFICANT * Power(excess)
  {
    ExcessBounds(n);
    if Excess(n) <= excess {
      PowersGrow(Excess(n), excess);
      ProductsGrow(Power(Excess(n)), Power(excess), SIGNIFICANT);
    } else {
      PowersGrow(excess + 1, Excess(n));
      ProductsGrow(Power(excess + 1), Power(Excess(n)), SIGNIFICANT / 2);
    }
  }

  lemma PowersGrow(low: nat, high: nat)
    requires low <= high
    ensures Power(low) <= Power(high)
  {
    if low < high {
      PowerGrows(low, high);
    }
  }

  /** Numbers are read as infinity from the middle between the largest one and the next power of two on. */
  lemma InfiniteExactly(n: nat)
    ensures NumberAsRead(n) == Infinite <==> n >= Power(1024) - Power(970)
  {
    var unit := Power(971);
    PowerOfSignificant();
    PowerAdds(971, 53);
    assert Power(1024) == SIGNIFICANT * unit && unit == 2 * Power(970);
    ExcessAtLeast(n, 971);
    ExcessAtLeast(n, 970);
    if Excess(n) == 971 {
      NearestIsLargest(n, unit, Power(970));
    }
  }

  lemma NearestIsLargest(n: nat, unit: nat, half: nat)
    requires unit == 2 * half && half > 0 && n < SIGNIFICANT * unit
    ensures Nearest(n, unit) == SIGNIFICANT <==> n >= SIGNIFICANT * unit - half
  {
    var quotient, rest := n / unit, n % unit;
    assert n == quotient * unit + rest;
    BetweenMultiples(n, unit, 0, SIGNIFICANT);
    ProductsGrow(quotient, SIGNIFICANT - 1, unit);
    ProductsApart(quotient, SIGNIFICANT - 1, unit);
  }

  /** In a finer unit a number rounds to no more than in the coarser unit of a larger number. */
  lemma RoundedGrows(m: nat, n: nat)
    requires m <= n
    ensures Nearest(m, Power(Excess(m))) * Power(Excess(m)) <= Nearest(n, Power(Excess(n))) * Power(Excess(n))
  {
    var fine, coarse := Power(Excess(m)), Power(Excess(n));
    ExcessGrows(m, n);
    if Excess(m) == Excess(n) {
      NearestGrows(m, n, fine);
      ProductsGrow(Nearest(m, fine), Nearest(n, fine), fine);
    } else {
      PowerGrows(Excess(m), Excess(n));
      NearestBounds(m);
      NearestBounds(n);
      ProductsGrow(Nearest(m, fine), SIGNIFICANT, fine);
      ProductsGrow(2 * fine, coarse, SIGNIFICANT / 2);
      ProductsGrow(SIGNIFICANT / 2, Nearest(n, coarse), coarse);
      assert SIGNIFICANT * fine == SIGNIFICANT / 2 * (2 * fine);
    }
  }

  /** Reading may merge two numbers but never swaps them. */
  lemma ReadingNeverSwaps(m: nat, n: nat)
    requires m <= n
    ensures NumberAsRead(m) == NumberAsRead(n) || IdentifierPrecedes(NumberAsRead(m), NumberAsRead(n))
  {
    RoundedGrows(m, n);
    ExcessGrows(m, n);
    NearestBounds(n);
    if Excess(m) == Excess(n) {
      NearestGrows(m, n, Power(Excess(m)));
    }
  }

  /** Two different numbers that are read alike. */
  predicate Merged(s: string, t: string) {
    && NumberOf(s).Some? && NumberOf(t).Some? && NumberOf(s) != NumberOf(t)
    && IdentifierOf(s) == IdentifierOf(t)
  }

  /** Apart from merging two numbers, reading keeps identifiers apart and in order. */
  lemma ReadingKeepsOrder(s: string, t: string)
    ensures IdentifierOf(s) == IdentifierOf(t) <==> ExactIdentifier(s) == ExactIdentifier(t) || Merged(s, t)
    ensures !Merged(s, t) ==>
              (IdentifierPrecedes(IdentifierOf(s), IdentifierOf(t)) <==> IdentifierPrecedes(ExactIdentifier(s), ExactIdentifier(t)))
  {
    if NumberOf(s).Some? && NumberOf(t).Some? {
      var m, n := NumberOf(s).value, NumberOf(t).value;
      ReadingNeverSwaps(if m <= n then m else n, if m <= n then n else m);
      IdentifiersTotal(IdentifierOf(s), IdentifierOf(t));
    }
  }

  /** `k` is where two lists of identifiers, as they are meant, first differ. */
  ghost predicate DifferAt(a: seq<string>, b: seq<string>, k: nat) {
    && k <= |a| && k <= |b| && ExactIdentifiers(a)[..k] == ExactIdentifiers(b)[..k]
    && (k < |a| || k < |b|)
    && (k < |a| && k < |b| ==> ExactIdentifier(a[k]) != ExactIdentifier(b[k]))
  }

  ghost predicate MergedAt(a: seq<string>, b: seq<string>, k: nat) {
    k < |a| && k < |b| && Merged(a[k], b[k])
  }

  lemma SamePrefixRead(a: seq<string>, b: seq<string>, k: nat)
    requires k <= |a| && k <= |b| && ExactIdentifiers(a)[..k] == ExactIdentifiers(b)[..k]
    ensures Identifiers(a)[..k] == Identifiers(b)[..k]
  {
    forall i | 0 <= i < k ensures Identifiers(a)[..k][i] == Identifiers(b)[..k][i] {
      assert ExactIdentifiers(a)[..k][i] == ExactIdentifiers(b)[..k][i];
      ReadingKeepsOrder(a[i], b[i]);
    }
  }

  /** Unless two numbers are merged there, the first difference decides, as the standard says. */
  lemma DecidesAtDifference(a: seq<string>, b: seq<string>, k: nat)
    requires DifferAt(a, b, k) && !MergedAt(a, b, k)
    ensures ListPrecedes(Identifiers(a), Identifiers(b)) <==> ListPrecedes(ExactIdentifiers(a), ExactIdentifiers(b))
  {
    var less := (x: Identifier, y: Identifier) => IdentifierPrecedes(x, y);
    IdentifiersOrdered();
    SamePrefixRead(a, b, k);
    Lexicographic.FirstDifference(Identifiers(a), Identifiers(b), less, k);
    Lexicographic.FirstDifference(Identifiers(b), Identifiers(a), less, k);
    Lexicographic.FirstDifference(ExactIdentifiers(a), ExactIdentifiers(b), less, k);
    Lexicographic.FirstDifference(ExactIdentifiers(b), ExactIdentifiers(a), less, k);
    if k < |a| && k < |b| {
      ReadingKeepsOrder(a[k], b[k]);
    }
  }

  /** And if two numbers are merged there, only what stands behind them counts. */
  lemma GoesOnBehindMerged(a: seq<string>, b: seq<string>, k: nat)
    requires DifferAt(a, b, k) && MergedAt(a, b, k)
    ensures ListPrecedes(Identifiers(a), Identifiers(b)) <==> ListPrecedes(Identifiers(a[k + 1..]), Identifiers(b[k + 1..]))
    ensures Identifiers(a) == Identifiers(b) <==> Identifiers(a[k + 1..]) == Identifiers(b[k + 1..])
  {
    var x, y := Identifiers(a), Identifiers(b);
    IdentifiersOrdered();
    SamePrefixRead(a, b, k);
    assert x[..k + 1] == x[..k] + [x[k]] && y[..k + 1] == y[..k] + [y[k]];
    Lexicographic.CommonBeginning(x, y, (v: Identifier, w: Identifier) => IdentifierPrecedes(v, w), k + 1);
    assert x[k + 1..] == Identifiers(a[k + 1..]) && y[k + 1..] == Identifiers(b[k + 1..]);
    assert x == x[..k + 1] + x[k + 1..] && y == y[..k + 1] + y[k + 1..];
  }

  /**
   The order of two different lists, as they are read, is that of the standard if and only if no
   two numbers are merged at their first difference, or what stands behind these happens to go
   the same way.
   */
  lemma OrderKeptExactly(a: seq<string>, b: seq<string>, k: nat)
    requires DifferAt(a, b, k) && ListPrecedes(ExactIdentifiers(a), ExactIdentifiers(b))
    ensures ListPrecedes(Identifiers(a), Identifiers(b))
       <==> !MergedAt(a, b, k) || ListPrecedes(Identifiers(a[k + 1..]), Identifiers(b[k + 1..]))
  {
    if MergedAt(a, b, k) {
      GoesOnBehindMerged(a, b, k);
    } else {
      DecidesAtDifference(a, b, k);
    }
  }

  /** Different lists differ somewhere first. */
  lemma {:induction false} DifferSomewhere(a: seq<string>, b: seq<string>)
    ensures ExactIdentifiers(a) == ExactIdentifiers(b) || exists k :: DifferAt(a, b, k)
  {
    var x, y := ExactIdentifiers(a), ExactIdentifiers(b);
    if a == [] || b == [] {
      assert x != y ==> DifferAt(a, b, 0);
    } else if x[0] != y[0] {
      assert DifferAt(a, b, 0);
    } else {
      DifferSomewhere(a[1..], b[1..]);
      assert x == [x[0]] + ExactIdentifiers(a[1..]) && y == [y[0]] + ExactIdentifiers(b[1..]);
      if k: nat :| DifferAt(a[1..], b[1..], k) {
        assert x[..k + 1] == [x[0]] + ExactIdentifiers(a[1..])[..k] && y[..k + 1] == [y[0]] + ExactIdentifiers(b[1..])[..k];
        assert DifferAt(a, b, k + 1);
      }
    }
  }

  /** Two numbers are merged at the first difference, and what stands behind does not make up for it. */
  ghost predicate Misread(s: Texts, t: Texts) {
    && s.major == t.major && s.minor == t.minor && s.patch == t.patch && s.prerelease.Some? && t.prerelease.Some?
    && var a, b := s.prerelease.value, t.prerelease.value;
       exists k :: DifferAt(a, b, k) && MergedAt(a, b, k) && !ListPrecedes(Identifiers(a[k + 1..]), Identifiers(b[k + 1..]))
  }

  /** Versions that the standard orders are read in that order except for those. */
  lemma VersionsKeptExactly(s: Texts, t: Texts)
    requires VersionPrecedes(AsMeant(s), AsMeant(t))
    ensures VersionPrecedes(AsRead(s), AsRead(t)) <==> !Misread(s, t)
  {
    if s.major == t.major && s.minor == t.minor && s.patch == t.patch && s.prerelease.Some? && t.prerelease.Some? {
      var a, b := s.prerelease.value, t.prerelease.value;
      assert ListPrecedes(ExactIdentifiers(a), ExactIdentifiers(b));
      PrecedenceTotal(AsMeant(s), AsMeant(t));
      DifferSomewhere(a, b);
      var k: nat :| DifferAt(a, b, k) && (Misread(s, t) ==> MergedAt(a, b, k) && !ListPrecedes(Identifiers(a[k + 1..]), Identifiers(b[k + 1..])));
      OrderKeptExactly(a, b, k);
    }
  }

  // ----- comparing -----

  /** The sign of a comparison: -1, 0 or 1. */
  type Sign = i: int | -1 <= i <= 1

  method CompareIdentifiers(left: Identifier, right: Identifier) returns (sign: Sign)
    requires left != right
    ensures sign == if IdentifierPrecedes(left, right) then -1 else 1
    ensures sign == 1 ==> IdentifierPrecedes(right, left)
  {
    IdentifiersTotal(left, right);
    if !left.Alphanumeric? && !right.Alphanumeric? {
      return if left.Numeric? && (right.Infinite? || left.value < right.value) then -1 else 1;
    }
    if !left.Alphanumeric? {
      return -1;
    }
    if !right.Alphanumeric? {
      return 1;
    }
    var less := CompareTexts(left.text, right.text);
    return if less then -1 else 1;
  }

  /** The index loop over prerelease identifiers. */
  method ComparePrerelease(left: Option<seq<Identifier>>, right: Option<seq<Identifier>>) returns (sign: Sign)
    ensures sign == -1 <==> PrereleasePrecedes(left, right)
    ensures sign == 1 <==> PrereleasePrecedes(right, left)
    ensures sign == 0 <==> left == right
  {
    if left == None || right == None {
      return if left == right then 0 else if left == None then 1 else -1;
    }
    var a, b := left.value, right.value;
    ghost var order := (x: Identifier, y: Identifier) => IdentifierPrecedes(x, y);
    IdentifiersOrdered();
    var index := 0;
    var max := Max(|a|, |b|);
    while index < max
      invariant index <= max && index <= |a| && index <= |b| && a[..index] == b[..index]
    {
      if index == |a| {
        assert Lexicographic.Differs(a, b, order, index);
        Lexicographic.Asymmetric(a, b, order);
        return -1;
      }
      if index == |b| {
        assert Lexicographic.Differs(b, a, order, index);
        Lexicographic.Asymmetric(b, a, order);
        return 1;
      }
      if a[index] != b[index] {
        sign := CompareIdentifiers(a[index], b[index]);
        if sign == -1 {
          assert Lexicographic.Differs(a, b, order, index);
          Lexicographic.Asymmetric(a, b, order);
        } else {
          assert Lexicographic.Differs(b, a, order, index);
          Lexicographic.Asymmetric(b, a, order);
        }
        return;
      }
      assert a[..index + 1] == a[..index] + [a[index]] && b[..index + 1] == b[..index] + [b[index]];
      index := index + 1;
    }
    assert a == b;
    if ListPrecedes(a, a) {
      Lexicographic.Asymmetric(a, a, order);
    }
    return 0;
  }

  /**
   The comparison is precedence of the versions as they are read. With safe integers that is what
   the standard means, and 0 only for equal releases with equal prerelease identifiers.
   */
  method CompareVersions(left: string, right: string) returns (sign: Option<Sign>)
    ensures sign == None <==> ParseVersion(left) == None || ParseVersion(right) == None
    ensures sign.Some? ==>
              && (sign.value == -1 <==> VersionPrecedes(ParseVersion(left).value, ParseVersion(right).value))
              && (sign.value == 1 <==> VersionPrecedes(ParseVersion(right).value, ParseVersion(left).value))
              && (sign.value == 0 <==> ParseVersion(left) == ParseVersion(right))
    ensures sign.Some? && SafeVersion(left) && SafeVersion(right) ==>
              && ExactVersion(left).Some? && ExactVersion(right).Some?
              && (sign.value == -1 <==> VersionPrecedes(ExactVersion(left).value, ExactVersion(right).value))
              && (sign.value == 1 <==> VersionPrecedes(ExactVersion(right).value, ExactVersion(left).value))
              && (sign.value == 0 <==> ExactVersion(left) == ExactVersion(right))
  {
    if SafeVersion(left) && SafeVersion(right) {
      SafeVersionExact(left);
      SafeVersionExact(right);
    }
    var a, b := ParseVersion(left), ParseVersion(right);
    if a == None || b == None {
      return None;
    }
    if a.value.major != b.value.major {
      return Some(if a.value.major < b.value.major then -1 else 1);
    }
    if a.value.minor != b.value.minor {
      return Some(if a.value.minor < b.value.minor then -1 else 1);
    }
    if a.value.patch != b.value.patch {
      return Some(if a.value.patch < b.value.patch then -1 else 1);
    }
    var prerelease := ComparePrerelease(a.value.prerelease, b.value.prerelease);
    return Some(prerelease);
  }

  lemma ParsedDigit(front: string, number: nat, last: char, next: string)
    requires AllDigits(front) && Parse(front) == number && IsDigit(last) && next == front + [last]
    ensures AllDigits(next) && Parse(next) == 10 * number + ValueOf(last)
  {
    ParseStep(front, last);
  }

  /** The digits of the two numbers of the example. */
  lemma UnsafeDigits()
    ensures NumberOf("9007199254740992") == Some(MAX_SAFE_INTEGER + 1)
    ensures NumberOf("9007199254740993") == Some(MAX_SAFE_INTEGER + 2)
  {
    ParsedDigit("", 0, '9', "9");
    ParsedDigit("9", 9, '0', "90");
    ParsedDigit("90", 90, '0', "900");
    ParsedDigit("900", 900, '7', "9007");
    ParsedDigit("9007", 9007, '1', "90071");
    ParsedDigit("90071", 90071, '9', "900719");
    ParsedDigit("900719", 900719, '9', "9007199");
    ParsedDigit("9007199", 9007199, '2', "90071992");
    ParsedDigit("90071992", 90071992, '5', "900719925");
    ParsedDigit("900719925", 900719925, '4', "9007199254");
    ParsedDigit("9007199254", 9007199254, '7', "90071992547");
    ParsedDigit("90071992547", 90071992547, '4', "900719925474");
    ParsedDigit("900719925474", 900719925474, '0', "9007199254740");
    ParsedDigit("9007199254740", 9007199254740, '9', "90071992547409");
    ParsedDigit("90071992547409", 90071992547409, '9', "900719925474099");
    ParsedDigit("900719925474099", 900719925474099, '2', "9007199254740992");
    ParsedDigit("900719925474099", 900719925474099, '3', "9007199254740993");
  }

  lemma NumberedSpelled(text: string, digits: string)
    requires IsNumeral(digits) && text == "1.0.0-" + digits
    ensures ReadTexts(text) == Some(Texts(1, 0, 0, Some([digits])))
  {
    var release := ["1", "0", "0"];
    ParsedDigit("", 0, '1', "1");
    ParsedDigit("", 0, '0', "0");
    JoinThree("1", "0", "0", '.');
    TagCharacters(digits);
    assert Spelled(text, release, Some(digits), None) by {
      assert text == Join(release, '.') + Tail('-', Some(digits)) + Tail('+', None);
    }
    ReadSpelled(text, release, Some(digits), None);
    SplitJoin([digits], '.');
  }

  /** A version text with a prerelease of one number. */
  lemma NumberedVersion(text: string, digits: string)
    requires IsNumeral(digits) && text == "1.0.0-" + digits
    ensures ParseVersion(text) == Some(Version(1, 0, 0, Some([NumberAsRead(Parse(digits))])))
    ensures ExactVersion(text) == Some(Version(1, 0, 0, Some([Numeric(Parse(digits))])))
  {
    NumberedSpelled(text, digits);
    TagTextEnds(text);
    TrimNothing(text);
    assert Identifiers([digits]) == [NumberAsRead(Parse(digits))];
    assert ExactIdentifiers([digits]) == [Numeric(Parse(digits))];
  }

  lemma UnsafePair(left: string, right: string, low: string, high: string)
    requires left == "1.0.0-" + low && NumberOf(low) == Some(MAX_SAFE_INTEGER + 1)
    requires right == "1.0.0-" + high && NumberOf(high) == Some(MAX_SAFE_INTEGER + 2)
    ensures ParseVersion(left).Some? && ParseVersion(left) == ParseVersion(right)
    ensures ExactVersion(left).Some? && ExactVersion(right).Some?
    ensures VersionPrecedes(ExactVersion(left).value, ExactVersion(right).value)
  {
    NumberedVersion(left, low);
    NumberedVersion(right, high);
    UnsafeReadAlike();
    var a, b := Numeric(MAX_SAFE_INTEGER + 1), Numeric(MAX_SAFE_INTEGER + 2);
    assert IdentifierPrecedes(a, b);
    assert Lexicographic.Differs([a], [b], (x: Identifier, y: Identifier) => IdentifierPrecedes(x, y), 0);
    assert ListPrecedes([a], [b]);
  }

  /** Two versions that the standard orders and the program takes for the same. */
  method ExampleUnsafeVersionsEqual() returns (sign: Option<Sign>)
    ensures sign == Some(0)
    ensures
      var left, right := ExactVersion("1.0.0-9007199254740992"), ExactVersion("1.0.0-9007199254740993");
      left.Some? && right.Some? && VersionPrecedes(left.value, right.value)
  {
    var left, right := "1.0.0-9007199254740992", "1.0.0-9007199254740993";
    UnsafeDigits();
    UnsafePair(left, right, "9007199254740992", "9007199254740993");
    sign := CompareVersions(left, right);
  }
}
