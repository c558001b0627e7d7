/**
 Choosing a chart version from the tags of a registry: the exact-match scan, the filter loop,
 the in-place sort and the selection of its head.
 */
module Resolver {
  import opened Wrappers
  import opened Strings
  import opened SemVer
  import opened SemVerParsing
  import opened SemVerOrder

  /** A parsed constraint, as its Check method answers. */
  type Constraint = Version -> bool

  /**
   The two library calls of the resolution: version.ParseVersion, and semver.NewConstraint on
   anything but "*".
   */
  datatype Library = Library(parseVersion: string -> Option<Version>,
                             parseConstraint: string -> Option<Constraint>)

  /** What the resolution relies on; proved of the modelled parser below. */
  ghost predicate Reliable(lib: Library) {
    && lib.parseVersion("").None? && lib.parseVersion("*").None?
    && forall t :: lib.parseVersion(t).Some? ==>
         lib.parseVersion(t).value.original == t && WellFormed(lib.parseVersion(t).value)
  }

  /** The modelled version parser with any constraint parser. */
  function Actual(parseConstraint: string -> Option<Constraint>): Library {
    Library(ParseVersion, parseConstraint)
  }

  lemma ActualIsReliable(parseConstraint: string -> Option<Constraint>)
    ensures Reliable(Actual(parseConstraint))
  {
    assert Index("", '.') == 0 && Index("*", '.') == 1;
    forall t | ParseVersion(t).Some?
      ensures ParseVersion(t).value.original == t && WellFormed(ParseVersion(t).value)
    {
      ParsedText(t);
    }
  }

  datatype ResolveError = InvalidConstraint | NoMatch

  /** The constraint "*": a version without pre-release. */
  predicate Stable(v: Version) {
    v.pre == ""
  }

  function ConstraintFor(lib: Library, ver: string): Option<Constraint> {
    if ver == "" || ver == "*" then Some(Stable) else lib.parseConstraint(ver)
  }

  // ---------------------------------------------------------------- what a resolution is

  predicate Candidate(lib: Library, accepts: Constraint, tag: string) {
    lib.parseVersion(tag).Some? && accepts(lib.parseVersion(tag).value)
  }

  /** Both tags parse and tag has at least the precedence of other. */
  predicate AtLeast(lib: Library, tag: string, other: string) {
    && lib.parseVersion(tag).Some? && lib.parseVersion(other).Some?
    && Compare(lib.parseVersion(tag).value, lib.parseVersion(other).value) >= 0
  }

  /** Both tags parse and compare equal. */
  predicate SameClass(lib: Library, tag: string, other: string) {
    && lib.parseVersion(tag).Some? && lib.parseVersion(other).Some?
    && Compare(lib.parseVersion(tag).value, lib.parseVersion(other).value) == 0
  }

  /** tag is listed, matches, and no listed matching tag has higher precedence. */
  ghost predicate Highest(lib: Library, tags: seq<string>, accepts: Constraint, tag: string) {
    && tag in tags && Candidate(lib, accepts, tag)
    && forall t :: t in tags && Candidate(lib, accepts, t) ==> AtLeast(lib, tag, t)
  }

  ghost predicate ExactMatch(tags: seq<string>, ver: string) {
    ver != "" && ver in tags
  }

  /**
   r is an outcome the code allows for these tags and this request. It is a relation because the
   sort is not stable: among tags of equal precedence the code does not fix the choice.
   */
  ghost predicate Resolution(lib: Library, tags: seq<string>, ver: string, r: Result<string, ResolveError>) {
    if ExactMatch(tags, ver) then r == Ok(ver)
    else
      var c := ConstraintFor(lib, ver);
      if c.None? then r == Err(InvalidConstraint)
      else if exists t :: t in tags && Candidate(lib, c.value, t)
           then r.Ok? && Highest(lib, tags, c.value, r.value)
           else r == Err(NoMatch)
  }

  // ---------------------------------------------------------------- sorting

  /** The first n versions came out of the parser. */
  ghost predicate AllWellFormed(vs: seq<Version>, n: nat)
    requires n <= |vs|
  {
    forall i :: 0 <= i < n ==> WellFormed(vs[i])
  }

  /** The first n versions go from highest to lowest precedence. */
  ghost predicate Descending(vs: seq<Version>, n: nat)
    requires n <= |vs|
  {
    forall p, q :: 0 <= p < q < n ==> Compare(vs[p], vs[q]) >= 0
  }

  /** As Descending, but nothing is known about what precedes position j. */
  ghost predicate DescendingExcept(vs: seq<Version>, n: nat, j: nat)
    requires n <= |vs|
  {
    forall p, q :: 0 <= p < q < n && q != j ==> Compare(vs[p], vs[q]) >= 0
  }

  function Swapped(vs: seq<Version>, j: nat): seq<Version>
    requires 0 < j < |vs|
  {
    vs[j - 1 := vs[j]][j := vs[j - 1]]
  }

  lemma SwapSteps(vs: seq<Version>, n: nat, j: nat)
    requires 0 < j < n <= |vs| && AllWellFormed(vs, n)
    requires DescendingExcept(vs, n, j) && Compare(vs[j - 1], vs[j]) < 0
    ensures AllWellFormed(Swapped(vs, j), n) && DescendingExcept(Swapped(vs, j), n, j - 1)
  {
    CompareAntisymmetric(vs[j - 1], vs[j]);
  }

  lemma Settled(vs: seq<Version>, n: nat, j: nat)
    requires j < n <= |vs| && AllWellFormed(vs, n) && DescendingExcept(vs, n, j)
    requires j > 0 ==> Compare(vs[j - 1], vs[j]) >= 0
    ensures Descending(vs, n)
  {
    forall p, q | 0 <= p < q < n ensures Compare(vs[p], vs[q]) >= 0 {
      if q == j && p < j - 1 {
        CompareAntisymmetric(vs[j - 1], vs[j]);
        CompareAntisymmetric(vs[p], vs[j - 1]);
        CompareTransitive(vs[j], vs[j - 1], vs[p]);
        CompareAntisymmetric(vs[p], vs[j]);
      }
    }
  }

  /** Collection.Swap on neighbours. */
  method Swap(a: array<Version>, j: nat)
    requires 0 < j < a.Length
    modifies a
    ensures a[..] == Swapped(old(a[..]), j)
    ensures multiset(a[..]) == multiset(old(a[..]))
  {
    a[j - 1], a[j] := a[j], a[j - 1];
  }

  /** One insertion: moves element i up to its place by swaps with its left neighbour. */
  method Insert(a: array<Version>, i: nat)
    requires i < a.Length && AllWellFormed(a[..], i + 1) && Descending(a[..], i)
    modifies a
    ensures AllWellFormed(a[..], i + 1) && Descending(a[..], i + 1)
    ensures multiset(a[..]) == multiset(old(a[..]))
    ensures forall k :: i < k < a.Length ==> a[k] == old(a[k])
  {
    var j := i;
    while j > 0 && Compare(a[j - 1], a[j]) < 0
      invariant 0 <= j <= i
      invariant AllWellFormed(a[..], i + 1) && DescendingExcept(a[..], i + 1, j)
      invariant multiset(a[..]) == multiset(old(a[..]))
      invariant forall k :: i < k < a.Length ==> a[k] == old(a[k])
    {
      SwapSteps(a[..], i + 1, j);
      Swap(a, j);
      j := j - 1;
    }
    Settled(a[..], i + 1, j);
  }

  /** sort.Sort(sort.Reverse(semver.Collection(..))) on the first n elements, in place. */
  method SortDescending(a: array<Version>, n: nat)
    requires n <= a.Length && AllWellFormed(a[..], n)
    modifies a
    ensures Descending(a[..], n)
    ensures multiset(a[..n]) == multiset(old(a[..n]))
    ensures a[n..] == old(a[n..])
  {
    var i := 0;
    while i < n
      invariant i <= n && AllWellFormed(a[..], n) && Descending(a[..], i)
      invariant multiset(a[..]) == multiset(old(a[..]))
      invariant forall k :: i <= k < a.Length ==> a[k] == old(a[k])
    {
      Insert(a, i);
      i := i + 1;
    }
    assert a[n..] == old(a[n..]);
    PrefixElements(a[..], n);
    PrefixElements(old(a[..]), n);
    assert old(a[..])[..n] == old(a[..n]) && old(a[..])[n..] == old(a[n..]);
  }

  lemma PrefixElements(vs: seq<Version>, n: nat)
    requires n <= |vs|
    ensures multiset(vs[..n]) == multiset(vs) - multiset(vs[n..])
  {
    assert vs == vs[..n] + vs[n..];
  }

  // ---------------------------------------------------------------- the resolution

  /** The versions the filter loop keeps from the tags, in listing order. */
  function Matching(lib: Library, tags: seq<string>, accepts: Constraint): seq<Version> {
    if tags == [] then []
    else
      var last := tags[|tags| - 1];
      Matching(lib, tags[..|tags| - 1], accepts) +
      if Candidate(lib, accepts, last) then [lib.parseVersion(last).value] else []
  }

  lemma {:induction false} MatchingContents(lib: Library, tags: seq<string>, accepts: Constraint)
    ensures |Matching(lib, tags, accepts)| <= |tags|
    ensures forall v :: v in Matching(lib, tags, accepts) <==>
                        exists t :: t in tags && Candidate(lib, accepts, t) && lib.parseVersion(t).value == v
  {
    if tags != [] {
      var n := |tags| - 1;
      MatchingContents(lib, tags[..n], accepts);
      assert tags == tags[..n] + [tags[n]];
    }
  }

  /** A matching version stands for a listed tag, which is its original text. */
  lemma MatchComesFromTag(lib: Library, tags: seq<string>, accepts: Constraint, v: Version)
    requires Reliable(lib) && v in Matching(lib, tags, accepts)
    ensures v.original in tags && Candidate(lib, accepts, v.original) && lib.parseVersion(v.original) == Some(v)
    ensures WellFormed(v)
  {
    hide WellFormed;
    MatchingContents(lib, tags, accepts);
    var tag :| tag in tags && Candidate(lib, accepts, tag) && lib.parseVersion(tag).value == v;
    assert lib.parseVersion(tag) == Some(v);
  }

  /** The head of the sorted matches is a highest match, by its original text. */
  lemma HeadIsHighest(lib: Library, tags: seq<string>, accepts: Constraint, sorted: seq<Version>)
    requires Reliable(lib)
    requires multiset(sorted) == multiset(Matching(lib, tags, accepts))
    requires sorted != [] && Descending(sorted, |sorted|)
    ensures Highest(lib, tags, accepts, sorted[0].original)
  {
    hide Compare, WellFormed;
    assert sorted[0] in multiset(sorted);
    assert sorted[0] in Matching(lib, tags, accepts);
    MatchComesFromTag(lib, tags, accepts, sorted[0]);
    CompareAntisymmetric(sorted[0], sorted[0]);
    forall t | t in tags && Candidate(lib, accepts, t) ensures AtLeast(lib, sorted[0].original, t) {
      MatchingContents(lib, tags, accepts);
      assert lib.parseVersion(t).value in Matching(lib, tags, accepts);
      assert lib.parseVersion(t).value in multiset(sorted);
    }
  }

  lemma MatchesAreWellFormed(lib: Library, tags: seq<string>, accepts: Constraint)
    requires Reliable(lib)
    ensures AllWellFormed(Matching(lib, tags, accepts), |Matching(lib, tags, accepts)|)
    ensures Matching(lib, tags, accepts) == [] <==> forall t :: t in tags ==> !Candidate(lib, accepts, t)
  {
    hide WellFormed;
    var found := Matching(lib, tags, accepts);
    MatchingContents(lib, tags, accepts);
    forall k | 0 <= k < |found| ensures WellFormed(found[k]) {
      MatchComesFromTag(lib, tags, accepts, found[k]);
    }
    if t :| t in tags && Candidate(lib, accepts, t) {
      assert lib.parseVersion(t).value in found;
    }
  }

  /** The exact-match scan. */
  method ListsExactly(tags: seq<string>, ver: string) returns (found: bool)
    ensures found == (ver in tags)
  {
    var i := 0;
    while i < |tags|
      invariant i <= |tags| && ver !in tags[..i]
    {
      if tags[i] == ver {
        return true;
      }
      i := i + 1;
    }
    assert tags[..i] == tags;
    return false;
  }

  /** The filter loop: appends the matching versions to a slice with room for every tag. */
  method Filter(lib: Library, tags: seq<string>, accepts: Constraint) returns (matching: array<Version>, n: nat)
    ensures fresh(matching) && n <= matching.Length == |tags|
    ensures matching[..n] == Matching(lib, tags, accepts)
  {
    matching := new Version[|tags|](_ => Version(0, 0, 0, "", "", ""));
    n := 0;
    var i := 0;
    while i < |tags|
      invariant i <= |tags| && n <= i
      invariant matching[..n] == Matching(lib, tags[..i], accepts)
    {
      assert tags[..i + 1][..i] == tags[..i];
      var v := lib.parseVersion(tags[i]);
      if v.Some? && accepts(v.value) {
        matching[n] := v.value;
        n := n + 1;
      }
      i := i + 1;
    }
    assert tags[..i] == tags;
  }

  /** The exact match if there is one, else the highest match, else why there is none. */
  method GetLastMatchingVersionOrConstraint(lib: Library, tags: seq<string>, ver: string)
    returns (r: Result<string, ResolveError>)
    requires Reliable(lib)
    ensures Resolution(lib, tags, ver, r)
  {
    hide Compare, WellFormed;
    if ver != "" {
      var listed := ListsExactly(tags, ver);
      if listed {
        return Ok(ver);
      }
    }
    var constraint := ConstraintFor(lib, ver);
    if constraint.None? {
      return Err(InvalidConstraint);
    }
    var matching, n := Filter(lib, tags, constraint.value);
    MatchesAreWellFormed(lib, tags, constraint.value);
    if n == 0 {
      return Err(NoMatch);
    }
    assert forall k :: 0 <= k < n ==> matching[k] == matching[..n][k];
    SortDescending(matching, n);
    ghost var sorted := matching[..n];
    assert Descending(sorted, n);
    HeadIsHighest(lib, tags, constraint.value, sorted);
    return Ok(matching[0].original);
  }
}
