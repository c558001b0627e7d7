/** Repository URLs: normalisation of trailing slashes and validation of dependency URLs. */
module URLs {
  import opened Wrappers
  import opened Strings

  const OCI_SCHEME := "oci"
  const ALIAS := "@"

  datatype URLError = InvalidDepURL | InvalidAliasedDep

  function NormalizeURL(url: string): string {
    if url == "" then ""
    else if Contains(url, OCI_SCHEME) then TrimRight(url, '/')
    else TrimRight(url, '/') + "/"
  }

  function ValidateDepURL(url: string): Option<URLError> {
    if HasPrefix(url, OCI_SCHEME) then None
    else if HasPrefix(url, "https://") || HasPrefix(url, "http://") then None
    else if HasPrefix(url, ALIAS) then Some(InvalidAliasedDep)
    else Some(InvalidDepURL)
  }

  /** The verdict, by what the URL starts with. */
  lemma VerdictMeans(url: string)
    ensures ValidateDepURL(url) == None <==>
            exists rest :: url == "oci" + rest || url == "https://" + rest || url == "http://" + rest
    ensures ValidateDepURL(url) == Some(InvalidAliasedDep) <==> exists rest :: url == "@" + rest
  {
    PrefixMeans(url, "oci");
    PrefixMeans(url, "https://");
    PrefixMeans(url, "http://");
    PrefixMeans(url, "@");
    assert "@"[0] == '@' && "oci"[0] == 'o' && "https://"[0] == 'h' && "http://"[0] == 'h';
  }

  // ---------------------------------------------------------------- trimming

  /** What is trimmed is a run of c, and what is left does not end in c. */
  lemma {:induction false} TrimRightSplits(s: string, c: char)
    ensures |TrimRight(s, c)| <= |s|
    ensures s == TrimRight(s, c) + Repeat(c, |s| - |TrimRight(s, c)|)
    ensures TrimRight(s, c) != "" ==> TrimRight(s, c)[|TrimRight(s, c)| - 1] != c
  {
    if s != "" && s[|s| - 1] == c {
      TrimRightSplits(s[..|s| - 1], c);
      assert s == s[..|s| - 1] + [c];
    }
  }

  lemma {:induction false} TrimRightRepeat(s: string, c: char, n: nat)
    requires s != "" ==> s[|s| - 1] != c
    ensures TrimRight(s + Repeat(c, n), c) == s
  {
    var t := s + Repeat(c, n);
    if n > 0 {
      assert t[..|t| - 1] == s + Repeat(c, n - 1);
      TrimRightRepeat(s, c, n - 1);
    } else {
      assert t == s;
    }
  }

  /** A marker without slashes is untouched by slashes added or removed at the end. */
  lemma ContainsBeforeSlashes(s: string, n: nat)
    ensures Contains(s + Repeat('/', n), OCI_SCHEME) <==> Contains(s, OCI_SCHEME)
  {
    var t := s + Repeat('/', n);
    if i: nat :| i <= |t| && OccursAt(t, OCI_SCHEME, i) {
      assert t[i..i + 3][2] == 'i' && t[i + 2] == 'i';
      assert s[i..i + 3] == t[i..i + 3];
      assert OccursAt(s, OCI_SCHEME, i);
    }
    if i: nat :| i <= |s| && OccursAt(s, OCI_SCHEME, i) {
      assert s[i..i + 3] == t[i..i + 3];
      assert OccursAt(t, OCI_SCHEME, i);
    }
  }

  /** Any number of trailing slashes on a prefix that ends in something else makes no difference. */
  lemma TrailingSlashesDoNotMatter(prefix: string, n: nat)
    requires prefix != "" && prefix[|prefix| - 1] != '/'
    ensures NormalizeURL(prefix + Repeat('/', n)) == NormalizeURL(prefix)
    ensures NormalizeURL(prefix) == prefix + if Contains(prefix, OCI_SCHEME) then "" else "/"
  {
    TrimRightRepeat(prefix, '/', n);
    ContainsBeforeSlashes(prefix, n);
  }

  lemma NormalizeIsIdempotent(url: string)
    ensures NormalizeURL(NormalizeURL(url)) == NormalizeURL(url)
  {
    var t := TrimRight(url, '/');
    TrimRightSplits(url, '/');
    ContainsBeforeSlashes(t, |url| - |t|);
    ContainsBeforeSlashes(t, 1);
    assert t + "/" == t + Repeat('/', 1);
    TrimRightRepeat(t, '/', 0);
    TrimRightRepeat(t, '/', 1);
    assert t + Repeat('/', 0) == t;
    assert forall i: nat :: OccursAt(t, OCI_SCHEME, i) ==> |t| >= 3;
  }

  // ---------------------------------------------------------------- validation after normalisation

  /** "http:" or "https:" followed by two or more slashes and nothing else. */
  ghost predicate BareScheme(url: string) {
    exists n: nat :: n >= 2 && (url == "http:" + Repeat('/', n) || url == "https:" + Repeat('/', n))
  }

  lemma OtherVerdict(t: string, n: nat)
    requires t != "" ==> t[|t| - 1] != '/'
    requires t == "http:" || t == "https:" ==> n < 2
    ensures ValidateDepURL(t + Repeat('/', n)) == ValidateDepURL(t) == ValidateDepURL(t + Repeat('/', 1))
  {
    PrefixKept(t, n, OCI_SCHEME);
    PrefixKept(t, n, ALIAS);
    SchemePrefixKept(t, n, "http:");
    SchemePrefixKept(t, n, "https:");
    assert "http://" == "http:" + "//" && "https://" == "https:" + "//";
  }

  /** Normalising a URL keeps the verdict on it except for a bare scheme, which becomes invalid. */
  lemma NormalizeKeepsVerdict(url: string)
    ensures ValidateDepURL(NormalizeURL(url)) == ValidateDepURL(url) <==> !BareScheme(url)
    ensures BareScheme(url) ==> ValidateDepURL(NormalizeURL(url)) == Some(InvalidDepURL)
  {
    hide ValidateDepURL;
    var t := TrimRight(url, '/');
    var n := |url| - |t|;
    TrimRightSplits(url, '/');
    if BareScheme(url) {
      var k: nat :| k >= 2 && (url == "http:" + Repeat('/', k) || url == "https:" + Repeat('/', k));
      TrimRightRepeat("http:", '/', k);
      TrimRightRepeat("https:", '/', k);
      BareIsNotOCI(t);
      ContainsBeforeSlashes(t, k);
      BareVerdict(url, t, k);
    } else if url != "" {
      assert t + "/" == t + Repeat('/', 1);
      OtherVerdict(t, n);
    }
  }

  lemma BareVerdict(url: string, t: string, k: nat)
    requires t == "http:" || t == "https:"
    requires url == t + Repeat('/', k) && k >= 2
    ensures ValidateDepURL(url) == None
    ensures ValidateDepURL(t + "/") == Some(InvalidDepURL)
  {
    assert url[..|t| + 2] == t + "//";
    assert "http:" + "//" == "http://" && "https:" + "//" == "https://";
    var u := t + "/";
    assert u[0] == 'h' && OCI_SCHEME[0] == 'o' && ALIAS[0] == '@';
    assert u[4] == ':' ==> |u| == 6;
    assert "http://"[4] == ':';
  }

  lemma BareIsNotOCI(t: string)
    requires t == "http:" || t == "https:"
    ensures !Contains(t, OCI_SCHEME)
  {
    assert forall i: nat :: OccursAt(t, OCI_SCHEME, i) ==> t[i] == OCI_SCHEME[0] by {
      forall i: nat | OccursAt(t, OCI_SCHEME, i) ensures t[i] == OCI_SCHEME[0] {
        assert t[i..i + 3][0] == t[i];
      }
    }
  }

  /** A prefix that does not end in a slash is kept by trailing slashes, added or removed. */
  lemma PrefixKept(t: string, n: nat, prefix: string)
    requires prefix != "" && '/' !in prefix
    ensures HasPrefix(t + Repeat('/', n), prefix) <==> HasPrefix(t, prefix)
    ensures HasPrefix(t + Repeat('/', 1), prefix) <==> HasPrefix(t, prefix)
  {
    PrefixKeptBy(t, n, prefix);
    PrefixKeptBy(t, 1, prefix);
  }

  lemma PrefixKeptBy(t: string, m: nat, prefix: string)
    requires prefix != "" && '/' !in prefix
    ensures HasPrefix(t + Repeat('/', m), prefix) <==> HasPrefix(t, prefix)
  {
    var u := t + Repeat('/', m);
    if |prefix| <= |t| {
      assert u[..|prefix|] == t[..|prefix|];
    } else if |prefix| <= |u| {
      assert u[|prefix| - 1] == '/' && prefix[|prefix| - 1] != '/';
    }
  }

  /** As PrefixKept, for a scheme followed by two slashes, unless t is the scheme alone. */
  lemma SchemePrefixKept(t: string, n: nat, scheme: string)
    requires scheme != "" && '/' !in scheme
    requires t != "" ==> t[|t| - 1] != '/'
    requires t == scheme ==> n < 2
    ensures HasPrefix(t + Repeat('/', n), scheme + "//") <==> HasPrefix(t, scheme + "//")
    ensures HasPrefix(t + Repeat('/', 1), scheme + "//") <==> HasPrefix(t, scheme + "//")
  {
    SchemePrefixKeptBy(t, n, scheme);
    SchemePrefixKeptBy(t, 1, scheme);
  }

  lemma SchemePrefixKeptBy(t: string, m: nat, scheme: string)
    requires scheme != "" && '/' !in scheme
    requires t != "" ==> t[|t| - 1] != '/'
    requires t == scheme ==> m < 2
    ensures HasPrefix(t + Repeat('/', m), scheme + "//") <==> HasPrefix(t, scheme + "//")
  {
    var u, p := t + Repeat('/', m), scheme + "//";
    assert p[..|scheme|] == scheme;
    if |p| <= |t| {
      assert u[..|p|] == t[..|p|];
    } else if |t| == |scheme| {
      assert u[..|scheme|] == t;
    } else if |t| == |p| - 1 {
      assert u[|scheme|] == t[|scheme|] != p[|scheme|];
    } else if |scheme| <= |u| {
      assert u[|scheme| - 1] == '/' && p[|scheme| - 1] == scheme[|scheme| - 1] != '/';
    }
  }

  // ---------------------------------------------------------------- normalising by scheme

  /** Normalisation "by its scheme", as the function is documented. */
  function NormalizeByScheme(url: string): string {
    if url == "" then ""
    else if HasPrefix(url, OCI_SCHEME) then TrimRight(url, '/')
    else TrimRight(url, '/') + "/"
  }

  /**
   The code looks for "oci" anywhere, so it agrees with the documentation exactly on URLs that
   start with "oci" or do not contain it.
   */
  lemma NormalizesBySchemeUnlessOCIInside(url: string)
    ensures NormalizeURL(url) == NormalizeByScheme(url) <==>
            (Contains(url, OCI_SCHEME) ==> HasPrefix(url, OCI_SCHEME))
  {
    if HasPrefix(url, OCI_SCHEME) {
      assert OccursAt(url, OCI_SCHEME, 0);
    }
    assert |TrimRight(url, '/') + "/"| == |TrimRight(url, '/')| + 1;
    assert forall i: nat :: OccursAt(url, OCI_SCHEME, i) ==> |url| >= 3;
  }

  /** An HTTPS host name with "oci" in it is left without its trailing slash. */
  lemma HostNameWithOCIInside()
    ensures NormalizeURL("https://social.example") == "https://social.example"
    ensures NormalizeByScheme("https://social.example") == "https://social.example/"
  {
    var url := "https://social.example";
    assert OccursAt(url, OCI_SCHEME, 9);
    assert url[0] == 'h' && OCI_SCHEME[0] == 'o';
    TrimRightRepeat(url, '/', 0);
    assert url + Repeat('/', 0) == url;
  }
}
