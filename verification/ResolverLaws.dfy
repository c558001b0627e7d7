/** What holds of every resolution of a chart version, whatever the sort does with ties. */
module ResolverLaws {
  import opened Wrappers
  import opened SemVer
  import opened SemVerParsing
  import opened SemVerOrder
  import opened Resolver

  // ---------------------------------------------------------------- precedence of tags

  lemma AtLeastTransitive(lib: Library, s: string, t: string, u: string)
    requires Reliable(lib) && AtLeast(lib, s, t) && AtLeast(lib, t, u)
    ensures AtLeast(lib, s, u)
  {
    var a, b, c := lib.parseVersion(s).value, lib.parseVersion(t).value, lib.parseVersion(u).value;
    CompareAntisymmetric(a, b);
    CompareAntisymmetric(b, c);
    CompareAntisymmetric(a, c);
    CompareTransitive(c, b, a);
  }

  lemma AtLeastTotal(lib: Library, s: string, t: string)
    requires Reliable(lib) && lib.parseVersion(s).Some? && lib.parseVersion(t).Some?
    ensures AtLeast(lib, s, t) || AtLeast(lib, t, s)
  {
    CompareAntisymmetric(lib.parseVersion(s).value, lib.parseVersion(t).value);
  }

  lemma ClassIsBothWays(lib: Library, s: string, t: string)
    requires Reliable(lib)
    ensures SameClass(lib, s, t) <==> AtLeast(lib, s, t) && AtLeast(lib, t, s)
  {
    if lib.parseVersion(s).Some? && lib.parseVersion(t).Some? {
      CompareAntisymmetric(lib.parseVersion(s).value, lib.parseVersion(t).value);
    }
  }

  /** With the modelled parser, tags of one class differ at most in a leading 'v' and in build metadata. */
  lemma ClassIsStem(parseConstraint: string -> Option<Constraint>, s: string, t: string)
    ensures SameClass(Actual(parseConstraint), s, t) <==>
            ParseVersion(s).Some? && ParseVersion(t).Some? && Stem(s) == Stem(t)
  {
    hide ParseVersion, Compare;
    TiesAreSpellings(s, t);
  }

  // ---------------------------------------------------------------- outcomes in terms of the libraries

  /** tag is listed, parses and satisfies the predicate, and every other such tag compares no higher. */
  ghost predicate Best(parse: string -> Option<Version>, tags: seq<string>, accepts: Version -> bool, tag: string) {
    && tag in tags && parse(tag).Some? && accepts(parse(tag).value)
    && forall t :: t in tags && parse(t).Some? && accepts(parse(t).value) ==>
         Compare(parse(tag).value, parse(t).value) >= 0
  }

  /** A listed request is answered by itself; any other by the constraint that it parses to. */
  lemma RequestDecides(lib: Library, tags: seq<string>, ver: string, r: Result<string, ResolveError>)
    requires Resolution(lib, tags, ver, r)
    ensures ver != "" && ver in tags ==> r == Ok(ver)
    ensures ver != "" && ver != "*" && ver !in tags ==>
              && (r == Err(InvalidConstraint) <==> lib.parseConstraint(ver).None?)
              && (r.Ok? ==> lib.parseConstraint(ver).Some?
                            && Best(lib.parseVersion, tags, lib.parseConstraint(ver).value, r.value))
              && (r == Err(NoMatch) <==>
                    && lib.parseConstraint(ver).Some?
                    && forall t :: t in tags && lib.parseVersion(t).Some? ==>
                         !lib.parseConstraint(ver).value(lib.parseVersion(t).value))
  {
    hide Compare;
    if ver != "" && ver != "*" && ver !in tags && lib.parseConstraint(ver).Some? {
      var accepts := lib.parseConstraint(ver).value;
      assert ConstraintFor(lib, ver) == Some(accepts);
      forall t ensures Candidate(lib, accepts, t) <==> lib.parseVersion(t).Some? && accepts(lib.parseVersion(t).value) {
      }
    }
  }

  /** An empty or unlisted "*" request is answered by the highest version without pre-release. */
  lemma LatestDecides(lib: Library, tags: seq<string>, ver: string, r: Result<string, ResolveError>)
    requires Resolution(lib, tags, ver, r) && (ver == "" || (ver == "*" && ver !in tags))
    ensures r.Ok? ==> Best(lib.parseVersion, tags, (v: Version) => v.pre == "", r.value)
    ensures r.Err? ==> r == Err(NoMatch)
    ensures r.Err? ==> forall t :: t in tags && lib.parseVersion(t).Some? ==> lib.parseVersion(t).value.pre != ""
  {
    hide Compare;
    forall t ensures Candidate(lib, Stable, t) <==> lib.parseVersion(t).Some? && lib.parseVersion(t).value.pre == "" {
    }
  }

  // ---------------------------------------------------------------- section 11

  /**
   The resolved tag has at least the precedence, by section 11 of Semantic Versioning 2.0.0, of every
   listed matching tag but those it is ranked against by a number beyond 64 bits.
   */
  lemma ResolvedBySection11(lib: Library, tags: seq<string>, ver: string, r: Result<string, ResolveError>, tag: string)
    requires Reliable(lib) && !ExactMatch(tags, ver) && Resolution(lib, tags, ver, r)
    requires ConstraintFor(lib, ver).Some? && tag in tags && Candidate(lib, ConstraintFor(lib, ver).value, tag)
    ensures r.Ok? && lib.parseVersion(r.value).Some?
    ensures var v, o := lib.parseVersion(r.value).value, lib.parseVersion(tag).value;
            Section11(v, o) >= 0 || DecidedByOversized(v, o)
  {
    hide Compare, Section11, DecidedByOversized;
    assert Highest(lib, tags, ConstraintFor(lib, ver).value, r.value);
    assert AtLeast(lib, r.value, tag);
    OrderFollowsSection11(lib.parseVersion(r.value).value, lib.parseVersion(tag).value);
  }

  // ---------------------------------------------------------------- listing order

  /** The lists hold the same tags, in any order and any number of times. */
  ghost predicate SameTags(tags: seq<string>, others: seq<string>) {
    forall t :: t in tags <==> t in others
  }

  /**
   The listing order does not matter: any two outcomes for the same tags fail alike or both
   succeed; an exact match is the same in both, and otherwise the two tags are of one class.
   */
  lemma OrderIndependence(lib: Library, tags: seq<string>, others: seq<string>, ver: string,
                          r: Result<string, ResolveError>, s: Result<string, ResolveError>)
    requires Reliable(lib) && SameTags(tags, others)
    requires Resolution(lib, tags, ver, r) && Resolution(lib, others, ver, s)
    ensures r.Err? || s.Err? || ExactMatch(tags, ver) ==> r == s
    ensures r.Ok? && !ExactMatch(tags, ver) ==> SameClass(lib, r.value, s.value)
  {
    hide Compare;
    var c := ConstraintFor(lib, ver);
    if !ExactMatch(tags, ver) && c.Some? {
      forall t ensures t in tags && Candidate(lib, c.value, t) <==> t in others && Candidate(lib, c.value, t) {
      }
      if r.Ok? {
        assert r.value in others && Candidate(lib, c.value, r.value);
        assert s.value in tags && Candidate(lib, c.value, s.value);
        ClassIsBothWays(lib, r.value, s.value);
      }
    }
  }

  // ---------------------------------------------------------------- more tags

  /**
   Listing more tags never turns success into failure and never lowers the version, as long as no
   tag equals the request; further tags that do not parse or match change nothing but the choice
   within the class.
   */
  lemma Monotonicity(lib: Library, tags: seq<string>, added: seq<string>, ver: string,
                     r: Result<string, ResolveError>, s: Result<string, ResolveError>)
    requires Reliable(lib) && !ExactMatch(tags + added, ver)
    requires Resolution(lib, tags, ver, r) && Resolution(lib, tags + added, ver, s)
    ensures r.Ok? ==> s.Ok? && AtLeast(lib, s.value, r.value)
    ensures var c := ConstraintFor(lib, ver);
            c.Some? && (forall t :: t in added ==> !Candidate(lib, c.value, t)) ==>
              if r.Err? then s == r else s.Ok? && SameClass(lib, s.value, r.value)
  {
    hide Compare;
    var c := ConstraintFor(lib, ver);
    assert forall t :: t in tags + added <==> t in tags || t in added;
    if c.Some? && r.Ok? {
      assert r.value in tags + added && Candidate(lib, c.value, r.value);
      if forall t :: t in added ==> !Candidate(lib, c.value, t) {
        assert s.value in tags && Candidate(lib, c.value, s.value);
        ClassIsBothWays(lib, s.value, r.value);
      }
    }
  }

  // ---------------------------------------------------------------- latest stable

  /**
   An empty or "*" request that is not itself a tag yields a version without pre-release, and
   fails exactly when no listed tag is one.
   */
  lemma LatestIsStable(lib: Library, tags: seq<string>, ver: string, r: Result<string, ResolveError>)
    requires ver == "" || ver == "*"
    requires !ExactMatch(tags, ver) && Resolution(lib, tags, ver, r)
    ensures r.Ok? ==> r.value in tags && Candidate(lib, Stable, r.value)
    ensures r.Err? <==> forall t :: t in tags ==> !Candidate(lib, Stable, t)
    ensures r != Err(InvalidConstraint)
  {
    assert ConstraintFor(lib, ver) == Some(Stable);
    if r.Ok? {
      assert Highest(lib, tags, Stable, r.value);
    }
  }

  /** In the text of a tag: no '-' before the build metadata. */
  lemma StableTagText(tag: string)
    requires ParseVersion(tag).Some?
    ensures Stable(ParseVersion(tag).value) <==> '-' !in Stem(tag)
  {
    hide ParseVersion;
    ParsedText(tag);
    CoreParts(ParseVersion(tag).value);
    StableCore(ParseVersion(tag).value);
  }

  lemma StableCore(v: Version)
    ensures v.pre == "" <==> '-' !in Core(v)
  {
    DecimalIsCanonical(v.major);
    DecimalIsCanonical(v.minor);
    DecimalIsCanonical(v.patch);
    if v.pre != "" {
      assert Marked('-', NonEmpty(v.pre))[0] == '-';
    }
  }

  // ---------------------------------------------------------------- one pass instead of a sort

  /** Highest match by one pass over the tags, keeping the first of equals. */
  function Scan(lib: Library, tags: seq<string>, accepts: Constraint): (best: Option<string>) {
    if tags == [] then None
    else
      var last, best := tags[|tags| - 1], Scan(lib, tags[..|tags| - 1], accepts);
      if !Candidate(lib, accepts, last) then best
      else if best.Some? && AtLeast(lib, best.value, last) then best
      else Some(last)
  }

  lemma {:induction false} ScanFindsHighest(lib: Library, tags: seq<string>, accepts: Constraint)
    requires Reliable(lib)
    ensures match Scan(lib, tags, accepts)
            case Some(best) => Highest(lib, tags, accepts, best)
            case None => forall t :: t in tags ==> !Candidate(lib, accepts, t)
  {
    hide Compare, WellFormed;
    if tags != [] {
      var n := |tags| - 1;
      var last, best := tags[n], Scan(lib, tags[..n], accepts);
      ScanFindsHighest(lib, tags[..n], accepts);
      assert tags == tags[..n] + [last];
      if Candidate(lib, accepts, last) {
        AtLeastTotal(lib, last, last);
        if best.Some? && !AtLeast(lib, best.value, last) {
          AtLeastTotal(lib, best.value, last);
          forall t | t in tags && Candidate(lib, accepts, t) ensures AtLeast(lib, last, t) {
            if t in tags[..n] {
              AtLeastTransitive(lib, last, best.value, t);
            }
          }
        }
      }
    }
  }

  /** Sorting and taking the head lands in the class that one pass finds, and fails when it finds none. */
  lemma SortRefinesScan(lib: Library, tags: seq<string>, ver: string, r: Result<string, ResolveError>)
    requires Reliable(lib)
    requires !ExactMatch(tags, ver) && ConstraintFor(lib, ver).Some? && Resolution(lib, tags, ver, r)
    ensures var best := Scan(lib, tags, ConstraintFor(lib, ver).value);
            if best.None? then r == Err(NoMatch) else r.Ok? && SameClass(lib, r.value, best.value)
  {
    hide Compare, WellFormed;
    var c := ConstraintFor(lib, ver).value;
    ScanFindsHighest(lib, tags, c);
    var best := Scan(lib, tags, c);
    if best.Some? {
      assert Highest(lib, tags, c, best.value);
      ClassIsBothWays(lib, r.value, best.value);
    }
  }
}
