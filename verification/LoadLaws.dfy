/** Loading a chart, read off the world: which failure comes first, and how every trace ends. */
module LoadLaws {
  import opened Wrappers
  import opened Strings
  import opened URLs
  import opened Auth
  import opened LoadChart

  /** What must have gone well before the client is made. */
  ghost predicate Prepared(w: World) {
    var url := NormalizeURL(w.url);
    && w.repositoryFound && ValidateDepURL(url) == None && LoginOptionOf(w, url).Ok?
    && w.kind == OCI && exists rest :: url == "oci://" + rest
  }

  ghost predicate NeedsFile(w: World) {
    exists u, p :: HasCredentials(w, NormalizeURL(w.url), u, p)
  }

  /** What must have gone well before the version is resolved. */
  ghost predicate Connected(w: World) {
    && Prepared(w) && w.clientOk && w.newRepositoryOk
    && (NeedsFile(w) ==> w.tempFile.Some? && w.loginOk)
  }

  /** Of every outcome, the conditions under which it comes about; they exclude each other. */
  lemma OutcomeMeans(w: World)
    ensures var url := NormalizeURL(w.url);
            match Outcome(Checks(w))
            case Ok(_) => Connected(w) && w.resolveOk && w.downloadOk && w.archiveOk
            case Err(NoRepository) => !w.repositoryFound
            case Err(BadRepositoryURL) => w.repositoryFound && ValidateDepURL(url).Some?
            case Err(UnhandledType) =>
              w.repositoryFound && ValidateDepURL(url) == None && LoginOptionOf(w, url).Ok? && w.kind != OCI
            case Err(NotOCI) =>
              && w.repositoryFound && ValidateDepURL(url) == None && LoginOptionOf(w, url).Ok? && w.kind == OCI
              && forall rest :: url != "oci://" + rest
            case Err(ClientError(causes)) =>
              && Prepared(w) && (!w.clientOk || (NeedsFile(w) && w.tempFile.None?))
              && causes == if NeedsFile(w) && w.tempFile.Some? && !w.removeOk then 2 else 1
            case Err(RepositoryError) =>
              Prepared(w) && w.clientOk && (NeedsFile(w) ==> w.tempFile.Some?) && !w.newRepositoryOk
            case Err(LoginError) =>
              Prepared(w) && w.clientOk && NeedsFile(w) && w.tempFile.Some? && w.newRepositoryOk && !w.loginOk
            case Err(VersionError) => Connected(w) && !w.resolveOk
            case Err(DownloadError) => Connected(w) && w.resolveOk && !w.downloadOk
            case Err(ArchiveError) => Connected(w) && w.resolveOk && w.downloadOk && !w.archiveOk
            case Err(e) =>
              w.repositoryFound && ValidateDepURL(url) == None && LoginOptionOf(w, url) == Err(e)
  {
    var url := NormalizeURL(w.url);
    ChecksInOrder(w);
    PreparationInOrder(w, url);
    ConnectionInOrder(w, LogsIn(w));
    FetchingInOrder(w);
    PrefixMeans(url, "oci://");
    FileMeansLogin(w);
    LoginErrors(w, url);
    hide NormalizeURL, ValidateDepURL, LoginOptionOf, HasPrefix, Outcome, Checks, Preparation, Connection, Fetching,
      NeedsFile, LogsIn;
  }

  lemma FileMeansLogin(w: World)
    ensures LoginOptionOf(w, NormalizeURL(w.url)).Ok? ==> (LogsIn(w) <==> NeedsFile(w))
  {
    var url := NormalizeURL(w.url);
    MayLogInIfOption(w, url);
    hide LoginOptionOf, HasCredentials, MayLogIn, NormalizeURL;
    if LoginOptionOf(w, url).Ok? {
      if LogsIn(w) {
        var login := LoginOptionOf(w, url).value.value;
        LoginOptionMeans(w, url, login.username, login.password);
      }
      if u, p :| HasCredentials(w, url, u, p) {
        LoginOptionMeans(w, url, u, p);
      }
    }
  }

  /** A call that found its repository opens its context first and cancels it last, each once. */
  lemma ContextFrames(trace: seq<Event>, i: nat)
    requires Completed(trace) && i < |trace|
    ensures trace[i] == ContextOpened <==> i == 0
    ensures trace[i] == ContextCancelled <==> i == |trace| - 1
  {
    hide PhaseAfter;
    var n := |trace| - 1;
    Around(trace, 0);
    Around(trace, i);
    Around(trace, n);
    StartIsFirst();
    assert trace[..n + 1] == trace;
    if i > 0 {
      Forward(trace, 1, i);
    }
    if i < n {
      Forward(trace, i + 1, n);
    }
  }
}
