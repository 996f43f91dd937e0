/** Stable release versions of any size, and the choice of the next one. */
module StableVersion {
  import opened Wrappers
  import opened Decimal
  import opened Text

  datatype Parts = Parts(major: nat, minor: nat, patch: nat)

  datatype Bump = Patch | Minor | Major

  /** `major.minor.patch`, every number without needless zeros. */
  predicate IsStable(s: string) {
    var parts := Split(s, '.');
    |parts| == 3 && Canonical(parts[0]) && Canonical(parts[1]) && Canonical(parts[2])
  }

  function PartsOf(s: string): Parts
    requires IsStable(s)
  {
    var parts := Split(s, '.');
    Parts(Parse(parts[0]), Parse(parts[1]), Parse(parts[2]))
  }

  function StableText(p: Parts): string {
    Join([Print(p.major), Print(p.minor), Print(p.patch)], '.')
  }

  /** Printing and reading undo each other. */
  lemma TextReadBack(p: Parts)
    ensures IsStable(StableText(p)) && PartsOf(StableText(p)) == p
  {
    var texts := [Print(p.major), Print(p.minor), Print(p.patch)];
    PrintCanonical(p.major);
    PrintCanonical(p.minor);
    PrintCanonical(p.patch);
    SplitJoin(texts, '.');
    ParsePrint(p.major);
    ParsePrint(p.minor);
    ParsePrint(p.patch);
  }

  lemma PartsWrittenBack(s: string)
    requires IsStable(s)
    ensures StableText(PartsOf(s)) == s
  {
    var parts := Split(s, '.');
    JoinSplit(s, '.');
    PrintThree(parts[0], parts[1], parts[2]);
    assert parts == [parts[0], parts[1], parts[2]];
  }

  lemma PrintThree(first: string, second: string, third: string)
    requires Canonical(first) && Canonical(second) && Canonical(third)
    ensures StableText(Parts(Parse(first), Parse(second), Parse(third))) == Join([first, second, third], '.')
  {
    PrintParse(first);
    PrintParse(second);
    PrintParse(third);
  }

  ghost predicate Before(p: Parts, q: Parts) {
    || p.major < q.major
    || (p.major == q.major && p.minor < q.minor)
    || (p.major == q.major && p.minor == q.minor && p.patch < q.patch)
  }

  lemma BeforeIsTotalOrder(p: Parts, q: Parts, r: Parts)
    ensures Before(p, q) || Before(q, p) || p == q
    ensures !(Before(p, q) && Before(q, p)) && !Before(p, p)
    ensures Before(p, q) && Before(q, r) ==> Before(p, r)
  {
  }

  type Sign = i: int | -1 <= i <= 1

  /** Compares two stable versions; the first that is not one is the error. */
  method CompareStable(left: string, right: string) returns (r: Result<Sign, string>)
    ensures !IsStable(left) ==> r == Failure(left)
    ensures IsStable(left) && !IsStable(right) ==> r == Failure(right)
    ensures r.Success? <==> IsStable(left) && IsStable(right)
    ensures r.Success? ==>
              && (r.value == -1 <==> Before(PartsOf(left), PartsOf(right)))
              && (r.value == 1 <==> Before(PartsOf(right), PartsOf(left)))
              && (r.value == 0 <==> left == right)
  {
    if !IsStable(left) {
      return Failure(left);
    }
    if !IsStable(right) {
      return Failure(right);
    }
    PartsWrittenBack(left);
    PartsWrittenBack(right);
    var sign := CompareParts(PartsOf(left), PartsOf(right));
    return Success(sign);
  }

  /** The index loop over the three numbers. */
  method CompareParts(left: Parts, right: Parts) returns (sign: Sign)
    ensures sign == -1 <==> Before(left, right)
    ensures sign == 1 <==> Before(right, left)
    ensures sign == 0 <==> left == right
  {
    var a, b := [left.major, left.minor, left.patch], [right.major, right.minor, right.patch];
    var index := 0;
    while index < 3
      invariant index <= 3
      invariant index > 0 ==> a[0] == b[0]
      invariant index > 1 ==> a[1] == b[1]
      invariant index > 2 ==> a[2] == b[2]
    {
      if a[index] < b[index] {
        return -1;
      }
      if a[index] > b[index] {
        return 1;
      }
      index := index + 1;
    }
    return 0;
  }

  /** The version that follows. */
  method NextStable(version: string, bump: Bump) returns (r: Result<string, string>)
    ensures r.Success? <==> IsStable(version)
    ensures r.Failure? ==> r.error == version
    ensures r.Success? ==> IsStable(r.value) && PartsOf(r.value) == Bumped(PartsOf(version), bump)
    ensures r.Success? ==>
              var p, q := PartsOf(version), PartsOf(r.value);
              match bump
              case Major => q.major == p.major + 1 && q.minor == 0 && q.patch == 0
              case Minor => q.major == p.major && q.minor == p.minor + 1 && q.patch == 0
              case Patch => q.major == p.major && q.minor == p.minor && q.patch == p.patch + 1
  {
    if !IsStable(version) {
      return Failure(version);
    }
    var p := PartsOf(version);
    var next :=
      if bump == Major then Parts(p.major + 1, 0, 0)
      else if bump == Minor then Parts(p.major, p.minor + 1, 0)
      else Parts(p.major, p.minor, p.patch + 1);
    TextReadBack(next);
    return Success(StableText(next));
  }

  function Bumped(p: Parts, bump: Bump): Parts {
    match bump
    case Major => Parts(p.major + 1, 0, 0)
    case Minor => Parts(p.major, p.minor + 1, 0)
    case Patch => Parts(p.major, p.minor, p.patch + 1)
  }

  function Weight(bump: Bump): nat {
    match bump case Patch => 1 case Minor => 2 case Major => 3
  }

  /** Every bump advances the version, a heavier one further, and each is the least version to change that much. */
  lemma BumpsAdvance(p: Parts, bump: Bump, other: Bump)
    ensures Before(p, Bumped(p, bump))
    ensures Before(Bumped(p, bump), Bumped(p, other)) <==> Weight(bump) < Weight(other)
  {
  }

  /** The version changes in this part, or in a heavier one. */
  predicate Changes(p: Parts, q: Parts, bump: Bump) {
    match bump
    case Major => q.major != p.major
    case Minor => q.major != p.major || q.minor != p.minor
    case Patch => q != p
  }

  /** A bump is the least of the later versions that change in its part or in a heavier one. */
  lemma BumpIsLeast(p: Parts, bump: Bump)
    ensures Before(p, Bumped(p, bump)) && Changes(p, Bumped(p, bump), bump)
    ensures forall q | Before(p, q) && Changes(p, q, bump) :: q == Bumped(p, bump) || Before(Bumped(p, bump), q)
  {
  }

  // ----- the bump that the changesets ask for -----

  /** The heaviest of what was asked for. */
  ghost predicate Heaviest(asked: multiset<Option<Bump>>, bump: Option<Bump>) {
    && (bump == None ==> forall b: Bump :: Some(b) !in asked)
    && (bump.Some? ==> bump in asked && forall b: Bump | Some(b) in asked :: Weight(b) <= Weight(bump.value))
  }

  lemma HeaviestUnique(asked: multiset<Option<Bump>>, bump: Option<Bump>, other: Option<Bump>)
    requires Heaviest(asked, bump) && Heaviest(asked, other)
    ensures bump == other
  {
    if bump.Some? && other.Some? {
      assert Weight(bump.value) == Weight(other.value);
    }
  }

  /** The selection loop; `asked[i]` is what changeset `i` asks for, if it asks for anything. */
  method SelectBump(asked: seq<Option<Bump>>) returns (selected: Option<Bump>)
    ensures Heaviest(multiset(asked), selected)
  {
    selected := None;
    var i := 0;
    while i < |asked|
      invariant i <= |asked|
      invariant Heaviest(multiset(asked[..i]), selected)
    {
      var bump := asked[i];
      assert asked[..i + 1] == asked[..i] + [bump];
      if bump.Some? && (selected == None || Weight(bump.value) > Weight(selected.value)) {
        selected := bump;
      }
      i := i + 1;
    }
    assert asked[..|asked|] == asked;
  }

  /** The planned version, if anything was asked for, comes after the base version, whatever the order of the changesets. */
  method Plan(base: string, asked: seq<Option<Bump>>) returns (r: Result<Option<string>, string>)
    ensures r.Success? <==> IsStable(base)
    ensures r.Success? ==> (r.value == None <==> forall i | 0 <= i < |asked| :: asked[i] == None)
    ensures r.Success? && r.value.Some? ==>
              && IsStable(r.value.value)
              && Before(PartsOf(base), PartsOf(r.value.value))
              && exists bump :: Heaviest(multiset(asked), Some(bump)) && PartsOf(r.value.value) == Bumped(PartsOf(base), bump)
  {
    if !IsStable(base) {
      return Failure(base);
    }
    var bump := SelectBump(asked);
    if bump == None {
      forall i | 0 <= i < |asked| ensures asked[i] == None {
        assert asked[i] in multiset(asked);
      }
      return Success(None);
    }
    var version := NextStable(base, bump.value);
    BumpsAdvance(PartsOf(base), bump.value, bump.value);
    var sign := CompareStable(version.value, base);
    if sign != Success(1) {
      return Failure(base);
    }
    assert bump in multiset(asked);
    return Success(Some(version.value));
  }
}
