/**
 * The Vault server as the script sees it, and `get_vault_client` in
 * `scripts/secret_backend.py`. The hvac client and its network traffic are
 * replaced by the server's answers, given as data.
 */
module Vault {
  import opened Wrappers
  import opened Errors

  /** A secret field's value. */
  type Value = string

  /** Where a secret lives: a KV mount and a path below it. */
  datatype Location = Location(mount: string, path: string)

  /** The outcome of one read: the secret's field map, or the reason it raised. */
  datatype Read = Found(data: map<string, Value>) | Failed(reason: string)

  /**
   * The answers of the two KV read operations for every location: `v2` is
   * `read_secret_version` followed by `response['data']['data']`, `v1` is
   * `read_secret` followed by `response['data']`.
   */
  datatype Store = Store(v2: Location -> Read, v1: Location -> Read)

  /** A Vault server: which (address, token) pairs `is_authenticated()` accepts, and its secrets. */
  datatype Server = Server(accepts: (string, string) -> bool, store: Store)

  /** The two environment variables the script reads. */
  datatype Env = Env(addr: Option<string>, token: Option<string>)

  datatype Client = Client(url: string, token: string)

  const DefaultAddr := "http://vault:8200"

  /**
   * Builds an authenticated client. An unset or empty token fails before the
   * server is asked; an unset address falls back to the default, while a set
   * but empty one is used as it is.
   */
  function GetVaultClient(env: Env, server: Server): (r: Result<Client, Error>)
    ensures (env.token.None? || env.token == Some("")) <==> r == Failure(MissingToken)
    ensures r.Success? ==>
              && Some(r.value.token) == env.token
              && r.value.url == env.addr.GetOr(DefaultAddr)
              && server.accepts(r.value.url, r.value.token)
    ensures r.Failure? ==> r.error == MissingToken || r.error == NotAuthenticated
    ensures r == Failure(NotAuthenticated) ==>
              env.token.Some? && !server.accepts(env.addr.GetOr(DefaultAddr), env.token.value)
  {
    var url := match env.addr case Some(a) => a case None => DefaultAddr;
    match env.token
    case None => Failure(MissingToken)
    case Some(token) =>
      if token == "" then Failure(MissingToken)
      else if !server.accepts(url, token) then Failure(NotAuthenticated)
      else Success(Client(url, token))
  }
}
