/**
 Loading a chart for a source reference: the temporary credentials file, the login and the
 deferred clean-up, on every path through the call.
 */
module LoadChart {
  import opened Wrappers
  import opened Strings
  import opened URLs
  import opened Auth

  /** os.CreateTemp never hands out an empty name. */
  type FileName = s: string | s != "" witness "f"

  datatype RepositoryType = OCI | OtherType

  datatype SecretFetch = NoSecretRef | FetchFailed | Fetched(secret: Secret, optionsOk: bool)

  datatype OidcFailure = Unconfigured | Refused

  /**
   What every call outside this code answers: one answer each, since each is made at most once.
   tempFile is None when no temporary file can be created.
   */
  datatype World = World(
    repositoryFound: bool, url: string, kind: RepositoryType, genericProvider: bool,
    secret: SecretFetch, oidcAuth: Option<Authenticator>, oidcFailure: Option<OidcFailure>,
    parseHost: string -> Option<string>,
    tempFile: Option<FileName>, clientOk: bool, removeOk: bool,
    newRepositoryOk: bool, loginOk: bool, resolveOk: bool, downloadOk: bool, archiveOk: bool)

  datatype Client = Client(credentialsFile: Option<FileName>)

  datatype Event =
    | ContextOpened | ContextCancelled
    | FileCreated(file: FileName) | ClientMade(client: Client) | FileRemoved(file: FileName)
    | LoginRefused(client: Client, login: LoginOption) | LoggedIn(client: Client, login: LoginOption)
    | LoggedOut(client: Client)
    | VersionResolved(client: Client) | ChartDownloaded(client: Client)

  datatype Deferred = Cancel | RemoveFile(file: FileName) | Logout(client: Client)

  datatype LoadError =
    | NoRepository | BadRepositoryURL | SecretError | OidcError | LoginOptionError | NotOCI | ClientError(causes: nat)
    | RepositoryError | LoginError | UnhandledType | VersionError | DownloadError | ArchiveError

  function Effect(d: Deferred): Event {
    match d
    case Cancel => ContextCancelled
    case RemoveFile(f) => FileRemoved(f)
    case Logout(c) => LoggedOut(c)
  }

  // ---------------------------------------------------------------- the protocol

  /** What is open: the context, a temporary file, a client, a login. */
  datatype Phase =
    | Start | Open
    | HasFile(f: FileName) | Backed(f: FileName) | In(f: FileName) | Out(f: FileName)
    | Plain | Cleaned | Closed

  /** The one phase that an event may lead to, if it may happen at all. */
  function Delta(p: Phase, e: Event): Option<Phase> {
    match (p, e)
    case (Start, ContextOpened) => Some(Open)
    case (Open, FileCreated(f)) => Some(HasFile(f))
    case (HasFile(f), ClientMade(c)) => if c == Client(Some(f)) then Some(Backed(f)) else None
    case (HasFile(f), FileRemoved(g)) => if g == f then Some(Cleaned) else None
    case (Open, ClientMade(c)) => if c == Client(None) then Some(Plain) else None
    case (Plain, VersionResolved(c)) => if c == Client(None) then Some(Plain) else None
    case (Plain, ChartDownloaded(c)) => if c == Client(None) then Some(Plain) else None
    case (Backed(f), LoginRefused(c, _)) => if c == Client(Some(f)) then Some(Backed(f)) else None
    case (Backed(f), LoggedIn(c, _)) => if c == Client(Some(f)) then Some(In(f)) else None
    case (Backed(f), FileRemoved(g)) => if g == f then Some(Cleaned) else None
    case (In(f), VersionResolved(c)) => if c == Client(Some(f)) then Some(In(f)) else None
    case (In(f), ChartDownloaded(c)) => if c == Client(Some(f)) then Some(In(f)) else None
    case (In(f), LoggedOut(c)) => if c == Client(Some(f)) then Some(Out(f)) else None
    case (Out(f), FileRemoved(g)) => if g == f then Some(Cleaned) else None
    case (Open, ContextCancelled) => Some(Closed)
    case (Plain, ContextCancelled) => Some(Closed)
    case (Cleaned, ContextCancelled) => Some(Closed)
    case _ => None
  }

  function PhaseAfter(trace: seq<Event>): Option<Phase> {
    if trace == [] then Some(Start)
    else
      var before := PhaseAfter(trace[..|trace| - 1]);
      if before.None? then None else Delta(before.value, trace[|trace| - 1])
  }

  /** What must still be cleaned up in a phase, in the order of registration. */
  function Pending(p: Phase): seq<Deferred> {
    match p
    case Start => []
    case Open => [Cancel]
    case HasFile(f) => [Cancel, RemoveFile(f)]
    case Backed(f) => [Cancel, RemoveFile(f)]
    case In(f) => [Cancel, RemoveFile(f), Logout(Client(Some(f)))]
    case Out(f) => [Cancel, RemoveFile(f)]
    case Plain => [Cancel]
    case Cleaned => [Cancel]
    case Closed => []
  }

  lemma Snoc(trace: seq<Event>, e: Event)
    ensures PhaseAfter(trace + [e]) ==
            if PhaseAfter(trace).None? then None else Delta(PhaseAfter(trace).value, e)
  {
    assert (trace + [e])[..|trace|] == trace;
  }

  /** What the trace has logged in with. */
  function Logins(trace: seq<Event>): set<LoginOption> {
    set e | e in trace && e.LoggedIn? :: e.login
  }

  lemma LoginsSnoc(trace: seq<Event>, e: Event)
    ensures Logins(trace + [e]) == Logins(trace) + if e.LoggedIn? then {e.login} else {}
  {
  }

  // ---------------------------------------------------------------- the client generator

  /**
   A client, with a temporary credentials file when there is a login. When the client cannot be
   made the file is removed again, and a failing removal is one more cause in the error.
   */
  method ClientGenerator(w: World, isLogin: bool, before: seq<Event>)
    returns (client: Result<Client, nat>, credentialsFile: string, trace: seq<Event>)
    requires PhaseAfter(before) == Some(Open)
    ensures client.Ok? <==> w.clientOk && (isLogin ==> w.tempFile.Some?)
    ensures client.Ok? && isLogin ==>
              client.value == Client(w.tempFile) && credentialsFile == w.tempFile.value
              && PhaseAfter(trace) == Some(Backed(w.tempFile.value))
    ensures client.Ok? && !isLogin ==>
              client.value == Client(None) && credentialsFile == "" && PhaseAfter(trace) == Some(Plain)
    ensures client.Err? ==> credentialsFile == "" && 1 <= client.error <= 2
                            && PhaseAfter(trace) == Some(if isLogin && w.tempFile.Some? then Cleaned else Open)
    ensures Logins(trace) == Logins(before)
    ensures client == Err(2) <==> isLogin && w.tempFile.Some? && !w.clientOk && !w.removeOk
  {
    trace, credentialsFile := before, "";
    if isLogin {
      if w.tempFile.None? {
        return Err(1), "", trace;
      }
      var f := w.tempFile.value;
      Snoc(trace, FileCreated(f));
      LoginsSnoc(trace, FileCreated(f));
      trace := trace + [FileCreated(f)];
      if !w.clientOk {
        var causes := 1;
        Snoc(trace, FileRemoved(f));
        LoginsSnoc(trace, FileRemoved(f));
        trace := trace + [FileRemoved(f)];
        if !w.removeOk {
          causes := causes + 1;
        }
        return Err(causes), "", trace;
      }
      Snoc(trace, ClientMade(Client(Some(f))));
      LoginsSnoc(trace, ClientMade(Client(Some(f))));
      trace := trace + [ClientMade(Client(Some(f)))];
      return Ok(Client(Some(f))), f, trace;
    }
    if !w.clientOk {
      return Err(1), "", trace;
    }
    Snoc(trace, ClientMade(Client(None)));
    LoginsSnoc(trace, ClientMade(Client(None)));
    trace := trace + [ClientMade(Client(None))];
    return Ok(Client(None)), "", trace;
  }

  // ---------------------------------------------------------------- the call

  /** The authentication data the repository is set up with, and the login option made of it. */
  function LoginOptionOf(w: World, url: string): Result<Option<LoginOption>, LoadError> {
    match w.secret
    case FetchFailed => Err(SecretError)
    case Fetched(secret, optionsOk) =>
      if !optionsOk then Err(SecretError)
      else
        var keychain := LoginOptionFromSecret(w.parseHost, url, secret);
        if keychain.Err? then Err(SecretError)
        else ForLogin(MakeLoginOption(w.parseHost, None, Some(keychain.value), url))
    case NoSecretRef =>
      if !w.genericProvider && w.kind == OCI then
        if w.oidcFailure == Some(Refused) then Err(OidcError)
        else ForLogin(MakeLoginOption(w.parseHost, w.oidcAuth, None, url))
      else ForLogin(MakeLoginOption(w.parseHost, None, None, url))
  }

  /** The user name and password for a URL, read straight off the world. */
  ghost predicate HasCredentials(w: World, url: string, u: string, p: string) {
    u != "" && p != "" &&
    match w.secret
    case Fetched(Opaque(user, password), _) => u == user && p == password && u != "<token>" && w.parseHost(url).Some?
    case Fetched(DockerConfigJson(config), _) =>
      && u != "<token>" && w.parseHost(url).Some? && config.Some?
      && (config.value)(w.parseHost(url).value) == Some(DockerAuth(w.parseHost(url).value, u, p))
    case NoSecretRef =>
      && !w.genericProvider && w.kind == OCI
      && exists token :: w.oidcAuth == Some(FromConfig(AuthConfig(u, p, token)))
    case FetchFailed => false
  }

  /** Whether the way to the login option is free: the secret's client options, or the provider's answer. */
  ghost predicate MayLogIn(w: World) {
    match w.secret
    case FetchFailed => false
    case Fetched(_, optionsOk) => optionsOk
    case NoSecretRef => w.genericProvider || w.kind != OCI || w.oidcFailure != Some(Refused)
  }

  /** The login option carries exactly those credentials. */
  lemma LoginOptionMeans(w: World, url: string, u: string, p: string)
    ensures LoginOptionOf(w, url) == Ok(Some(BasicAuth(u, p))) <==> MayLogIn(w) && HasCredentials(w, url, u, p)
  {
    match w.secret
    case FetchFailed =>
    case Fetched(secret, optionsOk) =>
      CredentialsRoundTrip(w.parseHost, url, secret, u, p);
    case NoSecretRef =>
      if w.oidcAuth.Some? {
        AuthenticatorDecides(w.parseHost, w.oidcAuth.value, None, url, u, p);
        if w.oidcAuth.value.FromConfig? {
          var c := w.oidcAuth.value.config;
          assert c == AuthConfig(c.username, c.password, c.identityToken);
        }
      }
  }

  /** A secret that has only one of user name and password, or none for the host it is asked about. */
  ghost predicate UnusableSecret(w: World, url: string, secret: Secret) {
    w.parseHost(url).None? ||
    match secret
    case Opaque(u, p) => (u == "") != (p == "")
    case DockerConfigJson(config) =>
      config.None? ||
      match (config.value)(w.parseHost(url).value)
      case None => true
      case Some(entry) => entry.host != w.parseHost(url).value || (entry.username == "") != (entry.password == "")
  }

  /** When the login option cannot be made, and why. */
  lemma LoginErrorsMean(w: World, url: string)
    ensures LoginOptionOf(w, url) == Err(SecretError) <==>
            match w.secret
            case FetchFailed => true
            case Fetched(secret, optionsOk) => !optionsOk || UnusableSecret(w, url, secret)
            case NoSecretRef => false
    ensures LoginOptionOf(w, url) == Err(OidcError) <==>
            w.secret.NoSecretRef? && !w.genericProvider && w.kind == OCI && w.oidcFailure == Some(Refused)
    ensures LoginOptionOf(w, url) == Err(LoginOptionError) <==>
            match w.secret
            case FetchFailed => false
            case Fetched(secret, optionsOk) =>
              optionsOk && !UnusableSecret(w, url, secret) && SecretUser(w, url, secret) == "<token>"
            case NoSecretRef =>
              && !w.genericProvider && w.kind == OCI && w.oidcFailure != Some(Refused) && w.oidcAuth.Some?
              && match w.oidcAuth.value
                 case Unauthorized => true
                 case Anonymous => false
                 case FromConfig(c) => (c.username == "") != (c.password == "")
  {
    assert "<token>" != "";
  }

  function SecretUser(w: World, url: string, secret: Secret): string {
    match secret
    case Opaque(u, _) => u
    case DockerConfigJson(config) =>
      if config.None? || w.parseHost(url).None? || (config.value)(w.parseHost(url).value).None? then ""
      else (config.value)(w.parseHost(url).value).value.username
  }

  function ForLogin(r: Result<Option<LoginOption>, AuthError>): Result<Option<LoginOption>, LoadError> {
    match r
    case Ok(o) => Ok(o)
    case Err(_) => Err(LoginOptionError)
  }

  /** What has to hold, and the error when it does not. */
  type Check = (bool, LoadError)

  /** The error of the first check that fails, if any does. */
  function Outcome(checks: seq<Check>): Result<(), LoadError> {
    if checks == [] then Ok(())
    else if !checks[0].0 then Err(checks[0].1)
    else Outcome(checks[1..])
  }

  /** All checks hold, or the error is that of the first one that does not. */
  lemma {:induction false} OutcomeIsFirstFailure(checks: seq<Check>)
    ensures match Outcome(checks)
            case Ok(_) => forall i :: 0 <= i < |checks| ==> checks[i].0
            case Err(e) => exists i :: 0 <= i < |checks| && checks[i] == (false, e)
                                       && forall j :: 0 <= j < i ==> checks[j].0
  {
    if checks != [] && checks[0].0 {
      OutcomeIsFirstFailure(checks[1..]);
      if Outcome(checks).Err? {
        var i :| 0 <= i < |checks[1..]| && checks[1..][i] == (false, Outcome(checks).error)
                 && forall j :: 0 <= j < i ==> checks[1..][j].0;
        assert checks[i + 1] == (false, Outcome(checks).error);
        assert forall j :: 0 < j < i + 1 ==> checks[j] == checks[1..][j - 1];
      } else {
        assert forall i :: 0 < i < |checks| ==> checks[i] == checks[1..][i - 1];
      }
    }
  }

  lemma {:induction false} OutcomeOfBoth(checks: seq<Check>, more: seq<Check>)
    ensures Outcome(checks + more) == if Outcome(checks).Err? then Outcome(checks) else Outcome(more)
  {
    if checks == [] {
      assert checks + more == more;
    } else {
      OutcomeOfBoth(checks[1..], more);
      assert (checks + more)[1..] == checks[1..] + more;
    }
  }

  lemma FirstCheck(checks: seq<Check>, i: nat)
    requires i < |checks|
    ensures Outcome(checks[i..]) == if checks[i].0 then Outcome(checks[i + 1..]) else Err(checks[i].1)
    ensures Outcome(checks[|checks|..]) == Ok(()) && checks[0..] == checks
  {
    assert checks[i..][1..] == checks[i + 1..];
  }

  function LoginOk(login: Result<Option<LoginOption>, LoadError>): Check {
    match login
    case Ok(_) => (true, LoginOptionError)
    case Err(e) => (false, e)
  }

  /** Before the client is made, for a normalised URL. */
  function Preparation(w: World, url: string): seq<Check> {
    [(ValidateDepURL(url) == None, BadRepositoryURL), LoginOk(LoginOptionOf(w, url)),
     (w.kind == OCI, UnhandledType), (HasPrefix(url, "oci://"), NotOCI)]
  }

  /** Whether ClientGenerator makes a client; a failing removal of the file is a second cause. */
  function ClientCheck(w: World, isLogin: bool): Check {
    (w.clientOk && (isLogin ==> w.tempFile.Some?),
     ClientError(if isLogin && w.tempFile.Some? && !w.removeOk then 2 else 1))
  }

  function Connection(w: World, isLogin: bool): seq<Check> {
    [ClientCheck(w, isLogin), (w.newRepositoryOk, RepositoryError), (isLogin ==> w.loginOk, LoginError)]
  }

  function Fetching(w: World): seq<Check> {
    [(w.resolveOk, VersionError), (w.downloadOk, DownloadError), (w.archiveOk, ArchiveError)]
  }

  /** Whether the load has to log in, as far as it gets to know. */
  predicate LogsIn(w: World) {
    var login := LoginOptionOf(w, NormalizeURL(w.url));
    login.Ok? && login.value.Some?
  }

  /** Everything a successful load needs, in order. */
  function Checks(w: World): seq<Check> {
    [(w.repositoryFound, NoRepository)] + Preparation(w, NormalizeURL(w.url))
    + Connection(w, LogsIn(w)) + Fetching(w)
  }

  /** The phase in which a client with or without credentials may use the registry. */
  function Ready(client: Client): Phase {
    if client.credentialsFile.Some? then In(client.credentialsFile.value) else Plain
  }

  /** Resolves the version, downloads the chart and reads the archive. */
  method Fetch(w: World, client: Client, before: seq<Event>) returns (r: Result<(), LoadError>, trace: seq<Event>)
    requires PhaseAfter(before) == Some(Ready(client))
    ensures PhaseAfter(trace) == Some(Ready(client)) && |trace| > |before|
    ensures r == Outcome(Fetching(w)) && Logins(trace) == Logins(before)
    ensures r.Ok? ==> trace == before + [VersionResolved(client)] + [ChartDownloaded(client)]
  {
    FetchingInOrder(w);
    hide Outcome, Fetching;
    Snoc(before, VersionResolved(client));
    LoginsSnoc(before, VersionResolved(client));
    trace := before + [VersionResolved(client)];
    if !w.resolveOk {
      return Err(VersionError), trace;
    }
    Snoc(trace, ChartDownloaded(client));
    LoginsSnoc(trace, ChartDownloaded(client));
    trace := trace + [ChartDownloaded(client)];
    if !w.downloadOk {
      return Err(DownloadError), trace;
    }
    if !w.archiveOk {
      return Err(ArchiveError), trace;
    }
    return Ok(()), trace;
  }

  lemma FetchingInOrder(w: World)
    ensures Outcome(Fetching(w)) ==
            if !w.resolveOk then Err(VersionError)
            else if !w.downloadOk then Err(DownloadError)
            else if !w.archiveOk then Err(ArchiveError)
            else Ok(())
  {
    FirstCheck(Fetching(w), 0);
    FirstCheck(Fetching(w), 1);
    FirstCheck(Fetching(w), 2);
  }

  lemma ConnectionInOrder(w: World, isLogin: bool)
    ensures Outcome(Connection(w, isLogin)) ==
            if !ClientCheck(w, isLogin).0 then Err(ClientCheck(w, isLogin).1)
            else if !w.newRepositoryOk then Err(RepositoryError)
            else if isLogin && !w.loginOk then Err(LoginError)
            else Ok(())
  {
    hide ClientCheck;
    FirstCheck(Connection(w, isLogin), 0);
    FirstCheck(Connection(w, isLogin), 1);
    FirstCheck(Connection(w, isLogin), 2);
  }

  lemma PreparationInOrder(w: World, url: string)
    ensures Outcome(Preparation(w, url)) ==
            if ValidateDepURL(url).Some? then Err(BadRepositoryURL)
            else if LoginOptionOf(w, url).Err? then Err(LoginOptionOf(w, url).error)
            else if w.kind != OCI then Err(UnhandledType)
            else if !HasPrefix(url, "oci://") then Err(NotOCI)
            else Ok(())
  {
    hide ValidateDepURL, LoginOptionOf;
    FirstCheck(Preparation(w, url), 0);
    FirstCheck(Preparation(w, url), 1);
    FirstCheck(Preparation(w, url), 2);
    FirstCheck(Preparation(w, url), 3);
  }

  /** Makes the client and the repository, and logs in when there is a login option. */
  method Connect(w: World, loginOpt: Option<LoginOption>, before: seq<Event>)
    returns (r: Result<Client, LoadError>, trace: seq<Event>, defers: seq<Deferred>)
    requires PhaseAfter(before) == Some(Open)
    ensures PhaseAfter(trace).Some? && PhaseAfter(trace) != Some(Start)
    ensures defers == Pending(PhaseAfter(trace).value)
    ensures Outcome(Connection(w, loginOpt.Some?)) == if r.Err? then Err(r.error) else Ok(())
    ensures r.Ok? ==> r.value == Client(if loginOpt.Some? then w.tempFile else None)
                      && PhaseAfter(trace) == Some(Ready(r.value))
    ensures var logins := if loginOpt.Some? then {loginOpt.value} else {};
            && (r.Ok? ==> Logins(trace) == Logins(before) + logins)
            && (r.Err? ==> Logins(trace) == Logins(before))
  {
    ConnectionInOrder(w, loginOpt.Some?);
    hide Outcome, Connection, Logins;
    defers := [Cancel];
    var generated, credentialsFile, made := ClientGenerator(w, loginOpt.Some?, before);
    trace := made;
    if generated.Err? {
      return Err(ClientError(generated.error)), trace, defers;
    }
    var client := generated.value;
    if credentialsFile != "" {
      defers := defers + [RemoveFile(credentialsFile)];
    }
    if !w.newRepositoryOk {
      return Err(RepositoryError), trace, defers;
    }
    if loginOpt.Some? {
      var login := loginOpt.value;
      if !w.loginOk {
        Snoc(trace, LoginRefused(client, login));
        LoginsSnoc(trace, LoginRefused(client, login));
        trace := trace + [LoginRefused(client, login)];
        return Err(LoginError), trace, defers;
      }
      Snoc(trace, LoggedIn(client, login));
      LoginsSnoc(trace, LoggedIn(client, login));
      trace := trace + [LoggedIn(client, login)];
      defers := defers + [Logout(client)];
    }
    return Ok(client), trace, defers;
  }

  /** The checks before the client is made; the login option is None when there will be no login. */
  method Prepare(w: World, url: string) returns (loginOpt: Result<Option<LoginOption>, LoadError>)
    ensures Outcome(Preparation(w, url)) == if loginOpt.Err? then Err(loginOpt.error) else Ok(())
    ensures loginOpt.Ok? ==> loginOpt == LoginOptionOf(w, url)
  {
    PreparationInOrder(w, url);
    hide ValidateDepURL, LoginOptionOf, Outcome, Preparation;
    if ValidateDepURL(url).Some? {
      return Err(BadRepositoryURL);
    }
    loginOpt := LoginOptionOf(w, url);
    if loginOpt.Err? {
      return;
    }
    if w.kind != OCI {
      return Err(UnhandledType);
    }
    if !HasPrefix(url, "oci://") {
      return Err(NotOCI);
    }
  }

  /** The client of a successful load. */
  function ClientOf(w: World): Client {
    Client(if LogsIn(w) then w.tempFile else None)
  }

  /** The client resolved the version and then downloaded the chart. */
  ghost predicate Fetches(trace: seq<Event>, client: Client) {
    exists i :: 0 < i < |trace| && trace[i - 1] == VersionResolved(client) && trace[i] == ChartDownloaded(client)
  }

  lemma ChecksInOrder(w: World)
    ensures Outcome(Checks(w)) ==
            if !w.repositoryFound then Err(NoRepository)
            else if Outcome(Preparation(w, NormalizeURL(w.url))).Err? then Outcome(Preparation(w, NormalizeURL(w.url)))
            else if Outcome(Connection(w, LogsIn(w))).Err? then Outcome(Connection(w, LogsIn(w)))
            else Outcome(Fetching(w))
  {
    hide Preparation, Connection, Fetching, LogsIn, NormalizeURL;
    var first := [(w.repositoryFound, NoRepository)];
    var url := NormalizeURL(w.url);
    OutcomeOfBoth(first + Preparation(w, url) + Connection(w, LogsIn(w)), Fetching(w));
    OutcomeOfBoth(first + Preparation(w, url), Connection(w, LogsIn(w)));
    OutcomeOfBoth(first, Preparation(w, url));
    assert first[1..] == [];
  }

  /** Only a missing repository fails with that error. */
  lemma OtherErrors(w: World)
    ensures Outcome(Preparation(w, NormalizeURL(w.url))) != Err(NoRepository)
    ensures Outcome(Connection(w, LogsIn(w))) != Err(NoRepository)
    ensures Outcome(Fetching(w)) != Err(NoRepository)
  {
    PreparationInOrder(w, NormalizeURL(w.url));
    ConnectionInOrder(w, LogsIn(w));
    FetchingInOrder(w);
    LoginErrors(w, NormalizeURL(w.url));
    hide Outcome, Preparation, Connection, Fetching, NormalizeURL, LogsIn, LoginOptionOf, ValidateDepURL;
  }

  /** Every login is with the credentials of the world, and in a load that is through there is one for them. */
  ghost predicate LoginsMatch(w: World, trace: seq<Event>, through: bool) {
    forall u, p ::
      && (BasicAuth(u, p) in Logins(trace) ==> HasCredentials(w, NormalizeURL(w.url), u, p))
      && (through && HasCredentials(w, NormalizeURL(w.url), u, p) ==> BasicAuth(u, p) in Logins(trace))
  }

  lemma LoginsFollow(w: World, trace: seq<Event>, loginOpt: Option<LoginOption>)
    requires LoginOptionOf(w, NormalizeURL(w.url)) == Ok(loginOpt)
    requires Logins(trace) == if loginOpt.Some? then {loginOpt.value} else {}
    ensures LoginsMatch(w, trace, true) && LoginsMatch(w, trace, false)
  {
    var url := NormalizeURL(w.url);
    MayLogInIfOption(w, url);
    hide LoginOptionOf, HasCredentials, MayLogIn, Logins, NormalizeURL;
    forall u, p
      ensures BasicAuth(u, p) in Logins(trace) <==> HasCredentials(w, url, u, p)
    {
      LoginOptionMeans(w, url, u, p);
    }
  }

  lemma MayLogInIfOption(w: World, url: string)
    ensures LoginOptionOf(w, url).Ok? ==> MayLogIn(w)
  {
  }

  /** The call up to its return, with the clean-up it has registered. */
  method Body(w: World) returns (r: Result<(), LoadError>, trace: seq<Event>, defers: seq<Deferred>)
    ensures PhaseAfter(trace).Some? && defers == Pending(PhaseAfter(trace).value)
    ensures r == Outcome(Checks(w))
    ensures r.Ok? ==> Fetches(trace, ClientOf(w))
    ensures r == Err(NoRepository) <==> PhaseAfter(trace) == Some(Start)
    ensures PhaseAfter(trace) == Some(Start) ==> trace == []
    ensures LoginsMatch(w, trace, r.Ok?)
  {
    trace, defers := [], [];
    assert PhaseAfter([]) == Some(Start);
    assert Delta(Start, ContextOpened) == Some(Open);
    ChecksInOrder(w);
    OtherErrors(w);
    hide PhaseAfter, Delta, NormalizeURL, LoginOptionOf, Outcome, Checks, Preparation, Connection, Fetching, Fetches;
    if !w.repositoryFound {
      return Err(NoRepository), trace, defers;
    }
    Snoc(trace, ContextOpened);
    trace := trace + [ContextOpened];
    defers := defers + [Cancel];
    assert Logins(trace) == {};
    var loginOpt := Prepare(w, NormalizeURL(w.url));
    if loginOpt.Err? {
      return Err(loginOpt.error), trace, defers;
    }
    var client, connected, registered := Connect(w, loginOpt.value, trace);
    trace, defers := connected, registered;
    if client.Err? {
      return Err(client.error), trace, defers;
    }
    r, trace := Fetch(w, client.value, trace);
    LoginsFollow(w, trace, loginOpt.value);
    if r.Ok? {
      FetchesLast(connected, client.value);
    }
  }

  lemma FetchesLast(before: seq<Event>, client: Client)
    ensures Fetches(before + [VersionResolved(client)] + [ChartDownloaded(client)], client)
  {
    var i := |before| + 1;
    var trace := before + [VersionResolved(client)] + [ChartDownloaded(client)];
    assert 0 < i < |trace| && trace[i - 1] == VersionResolved(client) && trace[i] == ChartDownloaded(client);
  }

  lemma LoginErrors(w: World, url: string)
    ensures LoginOptionOf(w, url).Err? ==> LoginOptionOf(w, url).error in {SecretError, OidcError, LoginOptionError}
  {
  }

  /** A trace that keeps the protocol and leaves nothing to clean up. */
  ghost predicate Completed(trace: seq<Event>) {
    PhaseAfter(trace) == Some(if trace == [] then Start else Closed)
  }

  /** Whatever fails, the whole call keeps the protocol and cleans up behind itself. */
  method LoadChart(w: World) returns (r: Result<(), LoadError>, trace: seq<Event>)
    ensures Completed(trace)
    ensures r == Outcome(Checks(w))
    ensures r.Ok? ==> Fetches(trace, ClientOf(w))
    ensures LoginsMatch(w, trace, r.Ok?)
    ensures trace == [] <==> r == Err(NoRepository)
  {
    hide PhaseAfter, Outcome, Checks, ClientOf;
    var defers;
    r, trace, defers := Body(w);
    OnlyEmptyTracesStayAtStart(trace);
    hide Pending, Effect;
    ghost var body := trace;
    while defers != []
      invariant PhaseAfter(trace).Some? && defers == Pending(PhaseAfter(trace).value)
      invariant body <= trace
      invariant body == [] ==> trace == [] && defers == []
      invariant Logins(trace) == Logins(body)
      decreases |defers|
    {
      var last := defers[|defers| - 1];
      DeferredCallFits(trace);
      LoginsSnoc(trace, Effect(last));
      NoLoginDeferred(last);
      trace := trace + [Effect(last)];
      defers := defers[..|defers| - 1];
    }
    NothingPending(trace);
    if r.Ok? {
      FetchesStill(body, trace, ClientOf(w));
    }
  }

  lemma NoLoginDeferred(d: Deferred)
    ensures !Effect(d).LoggedIn?
  {
  }

  lemma FetchesStill(trace: seq<Event>, longer: seq<Event>, client: Client)
    requires trace <= longer && Fetches(trace, client)
    ensures Fetches(longer, client)
  {
    var i :| 0 < i < |trace| && trace[i - 1] == VersionResolved(client) && trace[i] == ChartDownloaded(client);
    assert longer[i - 1] == trace[i - 1] && longer[i] == trace[i];
  }

  /** The clean-up registered last is the one the protocol expects next. */
  lemma DeferredCallFits(trace: seq<Event>)
    requires PhaseAfter(trace).Some? && Pending(PhaseAfter(trace).value) != []
    ensures var d := Pending(PhaseAfter(trace).value);
            var next := PhaseAfter(trace + [Effect(d[|d| - 1])]);
            next.Some? && Pending(next.value) == d[..|d| - 1]
  {
    var d := Pending(PhaseAfter(trace).value);
    Snoc(trace, Effect(d[|d| - 1]));
    hide PhaseAfter;
  }

  lemma NothingPending(trace: seq<Event>)
    requires PhaseAfter(trace).Some? && Pending(PhaseAfter(trace).value) == []
    ensures Completed(trace)
  {
    OnlyEmptyTracesStayAtStart(trace);
  }

  lemma OnlyEmptyTracesStayAtStart(trace: seq<Event>)
    ensures PhaseAfter(trace) == Some(Start) <==> trace == []
  {
  }

  // ---------------------------------------------------------------- what the protocol means

  lemma {:induction false} Prefixes(trace: seq<Event>, n: nat)
    requires PhaseAfter(trace).Some? && n <= |trace|
    ensures PhaseAfter(trace[..n]).Some?
    ensures n < |trace| ==> PhaseAfter(trace[..n + 1]) == Delta(PhaseAfter(trace[..n]).value, trace[n])
    decreases |trace|
  {
    if n < |trace| {
      var init := trace[..|trace| - 1];
      if n < |init| {
        Prefixes(init, n);
        assert init[..n] == trace[..n] && init[..n + 1] == trace[..n + 1];
      } else {
        assert trace[..n + 1] == trace;
      }
    } else {
      assert trace[..n] == trace;
    }
  }

  /** Phases only go forward. */
  function Rank(p: Phase): nat {
    match p
    case Start => 0
    case Open => 1
    case HasFile(_) => 2
    case Backed(_) => 3
    case In(_) => 4
    case Out(_) => 5
    case Plain => 5
    case Cleaned => 6
    case Closed => 7
  }

  function At(trace: seq<Event>, n: nat): Phase
    requires n <= |trace| && PhaseAfter(trace[..n]).Some?
  {
    PhaseAfter(trace[..n]).value
  }

  lemma DeltaForward(p: Phase, e: Event)
    ensures Delta(p, e).Some? ==> Rank(p) <= Rank(Delta(p, e).value)
  {
  }

  lemma {:induction false} Forward(trace: seq<Event>, m: nat, n: nat)
    requires PhaseAfter(trace).Some? && m <= n <= |trace|
    ensures PhaseAfter(trace[..m]).Some? && PhaseAfter(trace[..n]).Some?
    ensures Rank(At(trace, m)) <= Rank(At(trace, n))
    decreases n - m
  {
    hide PhaseAfter, Delta, Rank;
    Prefixes(trace, m);
    if m < n {
      Prefixes(trace, m + 1);
      DeltaForward(At(trace, m), trace[m]);
      Forward(trace, m + 1, n);
    }
  }

  /** The phase before the n-th event, which the event leaves as Delta says. */
  lemma Around(trace: seq<Event>, n: nat)
    requires PhaseAfter(trace).Some? && n < |trace|
    ensures PhaseAfter(trace[..n]).Some? && PhaseAfter(trace[..n + 1]).Some?
    ensures Delta(At(trace, n), trace[n]) == Some(At(trace, n + 1))
  {
    Prefixes(trace, n);
    Prefixes(trace, n + 1);
  }

  /** The event that first leads past a rank, in a trace that ends beyond it. */
  lemma {:induction false} LeavesPhase(trace: seq<Event>, n: nat) returns (j: nat)
    requires PhaseAfter(trace).Some? && n <= |trace|
    requires PhaseAfter(trace[..n]).Some? && At(trace, n) != PhaseAfter(trace).value
    ensures n <= j < |trace|
    ensures PhaseAfter(trace[..j]).Some? && At(trace, j) == At(trace, n)
    ensures PhaseAfter(trace[..j + 1]).Some? && At(trace, j + 1) != At(trace, n)
    decreases |trace| - n
  {
    hide PhaseAfter;
    assert n < |trace| by {
      assert trace[..|trace|] == trace;
    }
    Around(trace, n);
    if At(trace, n + 1) == At(trace, n) {
      j := LeavesPhase(trace, n + 1);
    } else {
      j := n;
    }
  }

  /** Logins are only attempted on clients backed by a temporary file created before. */
  lemma LoginsAreBacked(trace: seq<Event>, i: nat)
    requires PhaseAfter(trace).Some? && i < |trace|
    requires trace[i].LoggedIn? || trace[i].LoginRefused?
    ensures trace[i].client.credentialsFile.Some?
    ensures exists j :: 0 <= j < i && trace[j] == FileCreated(trace[i].client.credentialsFile.value)
  {
    Around(trace, i);
    var f := trace[i].client.credentialsFile.value;
    var j := FileComesFrom(trace, i, f);
  }

  ghost predicate Holds(p: Phase, f: FileName) {
    p == HasFile(f) || p == Backed(f) || p == In(f) || p == Out(f)
  }

  lemma {:induction false} FileComesFrom(trace: seq<Event>, n: nat, f: FileName) returns (j: nat)
    requires PhaseAfter(trace).Some? && n <= |trace|
    requires PhaseAfter(trace[..n]).Some? && Holds(At(trace, n), f)
    ensures j < n && trace[j] == FileCreated(f)
  {
    Around(trace, n - 1);
    if trace[n - 1] == FileCreated(f) {
      j := n - 1;
    } else {
      j := FileComesFrom(trace, n - 1, f);
    }
  }

  /** Two events that both lead from below a rank up to it are one. */
  lemma ReachedOnce(trace: seq<Event>, i: nat, k: nat, rank: nat)
    requires PhaseAfter(trace).Some? && i < |trace| && k < |trace|
    requires PhaseAfter(trace[..i]).Some? && PhaseAfter(trace[..i + 1]).Some?
    requires PhaseAfter(trace[..k]).Some? && PhaseAfter(trace[..k + 1]).Some?
    requires Rank(At(trace, i)) < rank == Rank(At(trace, i + 1))
    requires Rank(At(trace, k)) < rank == Rank(At(trace, k + 1))
    ensures i == k
  {
    hide PhaseAfter, Rank;
    if i < k {
      Forward(trace, i + 1, k);
    } else if k < i {
      Forward(trace, k + 1, i);
    }
  }

  /** Which rank the three events that happen once lead to. */
  lemma Reaches(trace: seq<Event>, i: nat)
    requires PhaseAfter(trace).Some? && i < |trace|
    ensures PhaseAfter(trace[..i]).Some? && PhaseAfter(trace[..i + 1]).Some?
    ensures trace[i].FileCreated? ==> Rank(At(trace, i)) < 2 == Rank(At(trace, i + 1))
    ensures trace[i].LoggedOut? ==> Rank(At(trace, i)) < 5 == Rank(At(trace, i + 1))
    ensures trace[i].FileRemoved? ==> Rank(At(trace, i)) < 6 == Rank(At(trace, i + 1))
  {
    hide PhaseAfter;
    Around(trace, i);
  }

  /**
   In a completed trace every temporary file created, whether or not a client could be made for
   it, sees exactly one removal attempt, after its creation.
   */
  lemma FilesAreRemovedOnce(trace: seq<Event>, i: nat) returns (j: nat)
    requires Completed(trace) && i < |trace| && trace[i].FileCreated?
    ensures i < j < |trace| && trace[j] == FileRemoved(trace[i].file)
    ensures forall k :: 0 <= k < |trace| && trace[k].FileRemoved? ==> k == j
    ensures forall k :: 0 <= k < |trace| && trace[k].FileCreated? ==> k == i
  {
    hide PhaseAfter, Rank;
    Around(trace, i);
    j := Removal(trace, i + 1, trace[i].file);
    Reaches(trace, j);
    Reaches(trace, i);
    forall k | 0 <= k < |trace| && trace[k].FileRemoved? ensures k == j {
      Reaches(trace, k);
      ReachedOnce(trace, j, k, 6);
    }
    forall k | 0 <= k < |trace| && trace[k].FileCreated? ensures k == i {
      Reaches(trace, k);
      ReachedOnce(trace, i, k, 2);
    }
  }

  lemma {:induction false} Removal(trace: seq<Event>, n: nat, f: FileName) returns (j: nat)
    requires Completed(trace) && n <= |trace|
    requires PhaseAfter(trace[..n]).Some? && Holds(At(trace, n), f)
    ensures n <= j < |trace| && trace[j] == FileRemoved(f)
    decreases |trace| - n
  {
    assert n < |trace| by {
      assert trace[..|trace|] == trace;
    }
    Around(trace, n);
    if trace[n] == FileRemoved(f) {
      j := n;
    } else {
      j := Removal(trace, n + 1, f);
    }
  }

  /**
   In a completed trace a successful login is followed by exactly one logout of the same client,
   and the removal of its credentials file comes after that logout.
   */
  lemma LogoutPrecedesRemoval(trace: seq<Event>, i: nat) returns (j: nat, k: nat)
    requires Completed(trace) && i < |trace| && trace[i].LoggedIn?
    ensures i < j < k < |trace|
    ensures trace[j] == LoggedOut(trace[i].client)
    ensures trace[i].client.credentialsFile.Some? && trace[k] == FileRemoved(trace[i].client.credentialsFile.value)
    ensures forall n :: 0 <= n < |trace| && trace[n].LoggedOut? ==> n == j
    ensures forall n :: 0 <= n < |trace| && trace[n].FileRemoved? ==> n == k
  {
    hide PhaseAfter, Rank;
    Around(trace, i);
    var f := trace[i].client.credentialsFile.value;
    j := LeavesPhase(trace, i + 1);
    Around(trace, j);
    var c := FileComesFrom(trace, i, f);
    k := FilesAreRemovedOnce(trace, c);
    RemovalAfter(trace, j, k);
    Reaches(trace, j);
    forall n | 0 <= n < |trace| && trace[n].LoggedOut? ensures n == j {
      Reaches(trace, n);
      ReachedOnce(trace, j, n, 5);
    }
  }

  lemma RemovalAfter(trace: seq<Event>, j: nat, k: nat)
    requires PhaseAfter(trace).Some? && j < |trace| && k < |trace|
    requires trace[j].LoggedOut? && trace[k].FileRemoved?
    ensures j < k
  {
    hide PhaseAfter;
    Reaches(trace, j);
    Reaches(trace, k);
    if k < j {
      Forward(trace, k + 1, j);
    }
  }

  /** The registry is only used through a client that is logged in, or through one that needs no login. */
  lemma RegistryUsedWhileLoggedIn(trace: seq<Event>, i: nat)
    requires PhaseAfter(trace).Some? && i < |trace|
    requires trace[i].VersionResolved? || trace[i].ChartDownloaded?
    ensures trace[i].client.credentialsFile.Some? ==>
              exists j :: 0 <= j < i && trace[j].LoggedIn? && trace[j].client == trace[i].client
                          && forall k :: j < k < i ==> !trace[k].LoggedOut?
  {
    Around(trace, i);
    if trace[i].client.credentialsFile.Some? {
      var j := LoginOf(trace, i);
    }
  }

  lemma StartIsFirst()
    ensures forall trace: seq<Event> :: PhaseAfter(trace[..0]) == Some(Start)
  {
  }

  lemma {:induction false} LoginOf(trace: seq<Event>, n: nat) returns (j: nat)
    requires PhaseAfter(trace).Some? && n <= |trace|
    requires PhaseAfter(trace[..n]).Some? && At(trace, n).In?
    ensures j < n && trace[j].LoggedIn? && trace[j].client == Client(Some(At(trace, n).f))
    ensures forall k :: j < k < n ==> !trace[k].LoggedOut?
  {
    StartIsFirst();
    hide PhaseAfter;
    Around(trace, n - 1);
    if trace[n - 1].LoggedIn? {
      j := n - 1;
    } else {
      j := LoginOf(trace, n - 1);
    }
  }
}
