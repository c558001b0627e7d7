/** The chart repository: from a chart name and a version request to a chart reference. */
module ChartRepository {
  import opened Wrappers
  import opened Strings
  import opened Resolver
  import opened ResolverLaws

  const OCI_PREFIX := "oci://"
  const DIGEST_PREFIX := "sha256:"

  datatype ChartVersion = ChartVersion(urls: seq<string>, name: string, version: string)

  datatype ChartError = CouldNotGetTags | Unresolved(why: ResolveError)

  /** The registry's answer to a tag listing of a reference without its scheme. */
  type TagLister = string -> Result<seq<string>, string>

  /** The chart version for a tag or digest below the chart's reference. */
  function Built(ref: string, name: string, tag: string): ChartVersion {
    ChartVersion([ref + ":" + tag], name, tag)
  }

  /** The request names a version or a digest, so no listing is needed. */
  predicate UsesShortcut(lib: Library, ver: string) {
    HasPrefix(ver, DIGEST_PREFIX) || lib.parseVersion(ver).Some?
  }

  /** getTags: an empty listing is an error too. */
  method GetTags(list: TagLister, ref: string) returns (tags: Result<seq<string>, ChartError>)
    ensures var listed := list(TrimPrefix(ref, OCI_PREFIX));
            tags == if listed.Err? || listed.value == [] then Err(CouldNotGetTags) else Ok(listed.value)
    ensures forall rest :: ref == "oci://" + rest ==>
              tags == if list(rest).Err? || list(rest).value == [] then Err(CouldNotGetTags) else Ok(list(rest).value)
  {
    TrimPrefixMeans(ref, "oci://");
    var listed := list(TrimPrefix(ref, OCI_PREFIX));
    if listed.Err? {
      return Err(CouldNotGetTags);
    }
    if |listed.value| == 0 {
      return Err(CouldNotGetTags);
    }
    return Ok(listed.value);
  }

  /**
   What the listing path may return. A failed resolution still returns a chart version, for the
   empty tag, beside the error.
   */
  ghost predicate ListingOutcome(lib: Library, listed: Result<seq<string>, string>, ref: string, name: string,
                                 ver: string, cv: Option<ChartVersion>, err: Option<ChartError>) {
    if listed.Err? || listed.value == [] then cv == None && err == Some(CouldNotGetTags)
    else if err == None then cv.Some? && cv.value == Built(ref, name, cv.value.version)
                             && Resolution(lib, listed.value, ver, Ok(cv.value.version))
    else cv == Some(Built(ref, name, "")) && err.value.Unresolved?
         && Resolution(lib, listed.value, ver, Err(err.value.why))
  }

  method GetChartVersion(lib: Library, list: TagLister, ref: string, name: string, ver: string)
    returns (cv: Option<ChartVersion>, err: Option<ChartError>)
    requires Reliable(lib)
    ensures (exists digest :: ver == "sha256:" + digest) || lib.parseVersion(ver).Some? ==>
              err == None && cv == Some(ChartVersion([ref + ":" + ver], name, ver))
    ensures err == None ==> cv.Some? && cv.value.urls == [ref + ":" + cv.value.version] && cv.value.name == name
    ensures err.Some? && err.value.Unresolved? ==> cv == Some(ChartVersion([ref + ":"], name, ""))
    ensures forall rest :: ref == "oci://" + rest && err == Some(CouldNotGetTags) ==>
              cv == None && (list(rest).Err? || list(rest).value == [])
    ensures if UsesShortcut(lib, ver) then cv == Some(Built(ref, name, ver)) && err == None
            else ListingOutcome(lib, list(TrimPrefix(ref, OCI_PREFIX)), ref, name, ver, cv, err)
  {
    PrefixMeans(ver, "sha256:");
    TrimPrefixMeans(ref, "oci://");
    assert ref + ":" + "" == ref + ":";
    var usesDigest := HasPrefix(ver, DIGEST_PREFIX);
    var usesSemver := lib.parseVersion(ver).Some?;
    if usesSemver || usesDigest {
      return Some(Built(ref, name, ver)), None;
    }
    var cvs := GetTags(list, ref);
    if cvs.Err? {
      return None, Some(cvs.error);
    }
    var tag := GetLastMatchingVersionOrConstraint(lib, cvs.value, ver);
    match tag {
      case Ok(t) => return Some(Built(ref, name, t)), None;
      case Err(e) => return Some(Built(ref, name, "")), Some(Unresolved(e));
    }
  }

  /**
   The shortcut answers as the listing path would exactly for requests that are among the listed
   tags: listed versions and digests lose nothing by skipping the listing, and for any other
   version or digest the listing path would have answered differently.
   */
  lemma ShortcutRefinesListing(lib: Library, tags: seq<string>, ref: string, name: string, ver: string,
                               cv: Option<ChartVersion>, err: Option<ChartError>)
    requires Reliable(lib) && UsesShortcut(lib, ver)
    requires ListingOutcome(lib, Ok(tags), ref, name, ver, cv, err)
    ensures cv == Some(Built(ref, name, ver)) && err == None <==> ver in tags
  {
    assert ver != "";
    if ver !in tags && err == None {
      var c := ConstraintFor(lib, ver);
      assert Highest(lib, tags, c.value, cv.value.version);
    }
  }

  /** The listing path, read literally: a failed listing gives nothing, else the tag resolved from it is built. */
  lemma ListingDecides(lib: Library, tags: seq<string>, ref: string, name: string, ver: string,
                       cv: Option<ChartVersion>, err: Option<ChartError>)
    requires ListingOutcome(lib, Ok(tags), ref, name, ver, cv, err)
    ensures tags == [] <==> err == Some(CouldNotGetTags)
    ensures err == None ==> cv.Some? && cv.value == ChartVersion([ref + ":" + cv.value.version], name, cv.value.version)
                            && Resolution(lib, tags, ver, Ok(cv.value.version))
    ensures err.Some? && err.value.Unresolved? ==>
              cv == Some(ChartVersion([ref + ":"], name, "")) && Resolution(lib, tags, ver, Err(err.value.why))
  {
    assert ref + ":" + "" == ref + ":";
  }

  /** Requests for the latest version always list the tags. */
  lemma LatestListsTags(lib: Library, ver: string)
    requires Reliable(lib) && (ver == "" || ver == "*")
    ensures !UsesShortcut(lib, ver)
  {
  }

  /**
   Two listings of the same tags give the same error, or chart versions of one chart whose
   versions are equal or of one precedence class.
   */
  lemma ListingOrderIndependence(lib: Library, tags: seq<string>, others: seq<string>,
                                 ref: string, name: string, ver: string,
                                 cv: Option<ChartVersion>, err: Option<ChartError>,
                                 cv': Option<ChartVersion>, err': Option<ChartError>)
    requires Reliable(lib) && SameTags(tags, others)
    requires ListingOutcome(lib, Ok(tags), ref, name, ver, cv, err)
    requires ListingOutcome(lib, Ok(others), ref, name, ver, cv', err')
    ensures err == err'
    ensures cv == cv' ||
            (err == None && !ExactMatch(tags, ver) && SameClass(lib, cv.value.version, cv'.value.version))
  {
    if tags == [] || others == [] {
      Inhabited(tags);
      Inhabited(others);
    } else {
      var r := if err == None then Ok(cv.value.version) else Err(err.value.why);
      var s := if err' == None then Ok(cv'.value.version) else Err(err'.value.why);
      OrderIndependence(lib, tags, others, ver, r, s);
    }
  }

  lemma Inhabited(tags: seq<string>)
    ensures tags != [] ==> exists t :: t in tags
  {
    if tags != [] {
      assert tags[0] in tags;
    }
  }

  // ---------------------------------------------------------------- verification

  /** One verifier's answer. */
  datatype Verdict = Failed(error: string) | Verified | NotVerified

  datatype VerifyError = NoVerifiers | NoURLs | BadReference | VerifierFailed(error: string) | NoSignature

  method VerifyChart(verdicts: seq<Verdict>, chart: ChartVersion, parses: string -> bool)
    returns (err: Option<VerifyError>)
    ensures err == Some(NoVerifiers) <==> verdicts == []
    ensures err == Some(NoURLs) <==> verdicts != [] && chart.urls == []
    ensures err == Some(BadReference) <==>
            verdicts != [] && chart.urls != [] && !parses(TrimPrefix(chart.urls[0], OCI_PREFIX))
    ensures err == None <==>
            && chart.urls != [] && parses(TrimPrefix(chart.urls[0], OCI_PREFIX))
            && exists i :: 0 <= i < |verdicts| && verdicts[i] == Verified
                           && forall j :: 0 <= j < i ==> verdicts[j] == NotVerified
    ensures err == Some(NoSignature) <==>
            && verdicts != [] && chart.urls != [] && parses(TrimPrefix(chart.urls[0], OCI_PREFIX))
            && forall j :: 0 <= j < |verdicts| ==> verdicts[j] == NotVerified
    ensures err.Some? && err.value.VerifierFailed? ==>
            exists i :: 0 <= i < |verdicts| && verdicts[i] == Failed(err.value.error)
                        && forall j :: 0 <= j < i ==> verdicts[j] == NotVerified
  {
    if |verdicts| == 0 {
      return Some(NoVerifiers);
    }
    if |chart.urls| == 0 {
      return Some(NoURLs);
    }
    if !parses(TrimPrefix(chart.urls[0], OCI_PREFIX)) {
      return Some(BadReference);
    }
    var i := 0;
    while i < |verdicts|
      invariant i <= |verdicts|
      invariant forall j :: 0 <= j < i ==> verdicts[j] == NotVerified
    {
      match verdicts[i] {
        case Failed(e) => return Some(VerifierFailed(e));
        case Verified => return None;
        case NotVerified =>
      }
      i := i + 1;
    }
    return Some(NoSignature);
  }
}
