/** From a repository secret or a cloud provider's answer to the option used to log in to a registry. */
module Auth {
  import opened Wrappers

  datatype AuthConfig = AuthConfig(username: string, password: string, identityToken: string)

  /** Basic credentials for a registry login. */
  datatype LoginOption = BasicAuth(username: string, password: string)

  datatype AuthError =
    | BadURL | BadDockerConfig | NoDockerAuth | WrongDockerHost
    | IncompleteSecret | NoAuthorization | IncompleteAuth

  /** url.Parse(..).Host; fails on an improper URL. */
  type HostParser = string -> Option<string>

  // ---------------------------------------------------------------- keychains

  datatype Authenticator = Anonymous | FromConfig(config: AuthConfig) | Unauthorized

  /** Authorization(): Unauthorized stands for an authenticator that answers with an error. */
  function Authorization(a: Authenticator): Option<AuthConfig> {
    match a
    case Anonymous => Some(AuthConfig("", "", ""))
    case FromConfig(c) => Some(c)
    case Unauthorized => None
  }

  datatype Helper = Helper(registry: string, username: string, password: string)

  /** helper.Get: knows one registry only. */
  function HelperGet(h: Helper, server: string): Option<(string, string)> {
    if server != h.registry then None else Some((h.username, h.password))
  }

  datatype Keychain = AnonymousKeychain | FromHelper(helper: Helper)

  /** A helper keychain answers anonymously when the helper fails, and reads "<token>" as a token login. */
  function Resolve(k: Keychain, host: string): Authenticator {
    match k
    case AnonymousKeychain => Anonymous
    case FromHelper(h) =>
      var got := HelperGet(h, host);
      if got.None? then Anonymous
      else if got.value.0 == "<token>" then FromConfig(AuthConfig(got.value.0, "", got.value.1))
      else FromConfig(AuthConfig(got.value.0, got.value.1, ""))
  }

  // ---------------------------------------------------------------- the secret

  /** An entry of a Docker configuration; host is the host name of its server address. */
  datatype DockerAuth = DockerAuth(host: string, username: string, password: string)

  /** config is None when the Docker configuration does not load; the lookup may fail too. */
  datatype Secret =
    | Opaque(username: string, password: string)
    | DockerConfigJson(config: Option<string -> Option<DockerAuth>>)

  /** The user name and password a secret holds for a host. */
  function Credentials(secret: Secret, host: string): Result<(string, string), AuthError> {
    match secret
    case Opaque(u, p) => Ok((u, p))
    case DockerConfigJson(config) =>
      if config.None? then Err(BadDockerConfig)
      else
        var entry := (config.value)(host);
        if entry.None? then Err(NoDockerAuth)
        else if entry.value.host != host then Err(WrongDockerHost)
        else Ok((entry.value.username, entry.value.password))
  }

  function LoginOptionFromSecret(parseHost: HostParser, url: string, secret: Secret): Result<Keychain, AuthError> {
    var host := parseHost(url);
    if host.None? then Err(BadURL)
    else match Credentials(secret, host.value)
      case Err(e) => Err(e)
      case Ok((u, p)) =>
        if u == "" && p == "" then Ok(AnonymousKeychain)
        else if u == "" || p == "" then Err(IncompleteSecret)
        else Ok(FromHelper(Helper(host.value, u, p)))
  }

  function AuthAdaptHelper(a: Authenticator): Result<Option<LoginOption>, AuthError> {
    match Authorization(a)
    case None => Err(NoAuthorization)
    case Some(c) =>
      if c.username == "" && c.password == "" then Ok(None)
      else if c.username == "" || c.password == "" then Err(IncompleteAuth)
      else Ok(Some(BasicAuth(c.username, c.password)))
  }

  function KeychainAdaptHelper(parseHost: HostParser, k: Keychain, url: string): Result<Option<LoginOption>, AuthError> {
    match parseHost(url)
    case None => Err(BadURL)
    case Some(host) => AuthAdaptHelper(Resolve(k, host))
  }

  function MakeLoginOption(parseHost: HostParser, auth: Option<Authenticator>, keychain: Option<Keychain>, url: string)
    : Result<Option<LoginOption>, AuthError>
  {
    if auth.Some? then AuthAdaptHelper(auth.value)
    else if keychain.Some? then KeychainAdaptHelper(parseHost, keychain.value, url)
    else Ok(None)
  }

  /** The login option for a secret, through keychain and back. */
  function LoginFromSecret(parseHost: HostParser, url: string, secret: Secret): Result<Option<LoginOption>, AuthError> {
    match LoginOptionFromSecret(parseHost, url, secret)
    case Err(e) => Err(e)
    case Ok(k) => MakeLoginOption(parseHost, None, Some(k), url)
  }

  /**
   The credentials of a secret come out of the keychain as they went in: a login option carries
   exactly the secret's user name and password for the URL's host, and there is one exactly when
   both are non-empty and the user name is not the reserved "<token>".
   */
  lemma CredentialsRoundTrip(parseHost: HostParser, url: string, secret: Secret, u: string, p: string)
    ensures LoginFromSecret(parseHost, url, secret) == Ok(Some(BasicAuth(u, p))) <==>
            && parseHost(url).Some? && Credentials(secret, parseHost(url).value) == Ok((u, p))
            && u != "" && p != "" && u != "<token>"
    ensures LoginFromSecret(parseHost, url, secret) == Ok(None) <==>
            parseHost(url).Some? && Credentials(secret, parseHost(url).value) == Ok(("", ""))
    ensures LoginFromSecret(parseHost, url, secret) == Err(IncompleteSecret) <==>
            && parseHost(url).Some? && Credentials(secret, parseHost(url).value).Ok?
            && var c := Credentials(secret, parseHost(url).value).value; (c.0 == "") != (c.1 == "")
  {
  }

  /** Of a Docker configuration only an entry for the URL's very host is used. */
  lemma DockerEntryForHost(parseHost: HostParser, url: string, config: string -> Option<DockerAuth>, u: string, p: string)
    ensures LoginFromSecret(parseHost, url, DockerConfigJson(Some(config))) == Ok(Some(BasicAuth(u, p))) <==>
            && parseHost(url).Some? && config(parseHost(url).value) == Some(DockerAuth(parseHost(url).value, u, p))
            && u != "" && p != "" && u != "<token>"
  {
  }

  /**
   An authenticator goes before any keychain. It logs in with both user name and password, or not at
   all when it has neither, even if it carries an identity token; one alone is an error.
   */
  lemma AuthenticatorDecides(parseHost: HostParser, a: Authenticator, k: Option<Keychain>, url: string, u: string, p: string)
    ensures MakeLoginOption(parseHost, Some(a), k, url) == Ok(Some(BasicAuth(u, p))) <==>
            u != "" && p != "" && exists token :: Authorization(a) == Some(AuthConfig(u, p, token))
    ensures MakeLoginOption(parseHost, Some(a), k, url) == Ok(None) <==>
            exists token :: Authorization(a) == Some(AuthConfig("", "", token))
  {
    if Authorization(a).Some? {
      var c := Authorization(a).value;
      assert c == AuthConfig(c.username, c.password, c.identityToken);
    }
  }

  /** Why no keychain is made of a secret, and when it is the anonymous one. */
  lemma KeychainMeans(parseHost: HostParser, url: string, secret: Secret)
    ensures var r := LoginOptionFromSecret(parseHost, url, secret);
            match parseHost(url)
            case None => r == Err(BadURL)
            case Some(host) =>
              match secret
              case Opaque(u, p) => (r == Ok(AnonymousKeychain) <==> u == "" && p == "")
                                   && (r == Err(IncompleteSecret) <==> (u == "") != (p == ""))
              case DockerConfigJson(None) => r == Err(BadDockerConfig)
              case DockerConfigJson(Some(config)) =>
                match config(host)
                case None => r == Err(NoDockerAuth)
                case Some(entry) =>
                  && (r == Err(WrongDockerHost) <==> entry.host != host)
                  && (r == Ok(AnonymousKeychain) <==> entry.host == host && entry.username == "" && entry.password == "")
  {
  }

  /** An authenticator that answers with an error, or with one of user name and password, is an error. */
  lemma AuthenticatorErrors(a: Authenticator)
    ensures AuthAdaptHelper(a) == Err(NoAuthorization) <==> a == Unauthorized
    ensures AuthAdaptHelper(a) == Err(IncompleteAuth) <==>
            a.FromConfig? && (a.config.username == "") != (a.config.password == "")
  {
  }

  /** Complete credentials with the user name "<token>" pass the secret check and then fail the login. */
  lemma TokenSecretsFail(parseHost: HostParser, url: string, p: string)
    requires parseHost(url).Some? && p != ""
    ensures LoginOptionFromSecret(parseHost, url, Opaque("<token>", p)).Ok?
    ensures LoginFromSecret(parseHost, url, Opaque("<token>", p)) == Err(IncompleteAuth)
  {
  }

  /** Credentials for one host are never handed to another: the keychain then answers anonymously. */
  lemma CredentialsStayWithHost(parseHost: HostParser, url: string, other: string, secret: Secret, k: Keychain)
    requires LoginOptionFromSecret(parseHost, url, secret) == Ok(k)
    requires parseHost(other).Some? && parseHost(other) != parseHost(url)
    ensures KeychainAdaptHelper(parseHost, k, other) == Ok(None)
  {
  }
}
